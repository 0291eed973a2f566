// The processing pipeline of com.levelsbeyond.jpoller.BasePollManager: each
// file announced by the poller is moved into a working folder and handed
// to the application's processing hook; the result sends the file on to a
// completed folder (or deletes it) or to a failed folder with a log of the
// exception. The executor and the thread that collects results are
// replaced by running the tasks in order and feeding the finished results
// in as a sequence.

module Pipeline {
  import opened Text
  import opened Files
  import opened Outcomes

  /** A Throwable as the failure log writes it: its message (possibly null), then its stack trace. */
  datatype Throwable = Throwable(message: Option<string>, trace: seq<string>)

  /** BasePollManager.Result. */
  datatype ProcessingResult = ProcessingResult(sourceFile: Option<Path>, successful: bool, exception: Option<Throwable>)

  function Success(file: Path): (r: ProcessingResult)
    ensures r.successful && r.exception.None? && r.sourceFile == Some(file)
  {
    ProcessingResult(Some(file), true, None)
  }

  function Fail(file: Path, e: Option<Throwable>): (r: ProcessingResult)
    ensures !r.successful && r.exception == e && r.sourceFile == Some(file)
  {
    ProcessingResult(Some(file), false, e)
  }

  /** What doProcess(file).get() does: it returns a result or throws. */
  datatype ProcessOutcome = Returned(result: ProcessingResult) | Threw(error: Throwable)

  /** process: the hook's result, or a failure carrying what it threw. */
  function Processed(hook: Path -> ProcessOutcome, file: Path): (r: ProcessingResult)
    ensures hook(file).Threw? ==> r == Fail(file, Some(hook(file).error))
    ensures hook(file).Returned? ==> r == hook(file).result
  {
    match hook(file)
    case Returned(result) => result
    case Threw(e) => Fail(file, Some(e))
  }

  /** The fields of the manager a pipeline step reads and never changes. */
  datatype Settings = Settings(baseFolder: Option<Path>, deleteOnSuccess: bool, pinned: set<Path>)

  /** The disk and the three folders, each fixed on first access. */
  datatype State = State(nodes: Nodes, completed: Option<Path>, failed: Option<Path>, working: Option<Path>)

  /** new File(baseFolder, name); a null base folder is read as the root. */
  function SubFolder(cfg: Settings, name: string): Path
  {
    Child(cfg.baseFolder.GetOr([]), name)
  }

  /** A lazy folder getter: the folder already fixed, or base/name created by mkdirs. */
  function Lazy(cfg: Settings, ns: Nodes, cur: Option<Path>, name: string): (r: (Nodes, Path))
    ensures cur.Some? ==> r == (ns, cur.value)
    ensures cur.None? ==> r == (AfterMkDirs(ns, SubFolder(cfg, name)), SubFolder(cfg, name))
  {
    if cur.Some? then (ns, cur.value)
    else
      var f := SubFolder(cfg, name);
      (AfterMkDirs(ns, f), f)
  }

  /** complete: a vanished file is left alone; otherwise it is deleted, or moved into the completed folder over any file of its name. */
  function AfterComplete(cfg: Settings, st: State, file: Path): (r: State)
    ensures r.failed == st.failed && r.working == st.working
  {
    if file !in st.nodes then st
    else if cfg.deleteOnSuccess then st.(nodes := AfterDelete(st.nodes, cfg.pinned, file))
    else
      var (ns, dir) := Lazy(cfg, st.nodes, st.completed, "completed");
      var dest := Child(dir, Name(file));
      State(AfterRename(AfterDelete(ns, cfg.pinned, dest), cfg.pinned, file, dest), Some(dir), st.failed, st.working)
  }

  /** The log lines of a failure: the message, then the stack trace. */
  function LogLines(e: Throwable): seq<string>
  {
    [e.message.GetOr("null")] + e.trace
  }

  /** The log beside a failed file: failed/name.log. */
  function LogFile(dir: Path, file: Path): Path
  {
    Child(dir, Name(file) + ".log")
  }

  /** The failed folder once any earlier failed/name and failed/name.log are deleted. */
  function Cleared(cfg: Settings, ns: Nodes, dir: Path, file: Path): Nodes
  {
    AfterDelete(AfterDelete(ns, cfg.pinned, Child(dir, Name(file))), cfg.pinned, LogFile(dir, file))
  }

  /** fail: the way cleared, the file moved in, the log written when there is an exception. */
  function AfterFail(cfg: Settings, st: State, file: Path, e: Option<Throwable>): (r: State)
    ensures r.completed == st.completed && r.working == st.working
  {
    var (ns, dir) := Lazy(cfg, st.nodes, st.failed, "failed");
    var ns1 := AfterRename(Cleared(cfg, ns, dir, file), cfg.pinned, file, Child(dir, Name(file)));
    var ns2 := if e.Some? then AfterWrite(ns1, cfg.pinned, LogFile(dir, file), LogLines(e.value)) else ns1;
    State(ns2, st.completed, Some(dir), st.working)
  }

  /** A file and its log lie apart: neither is the other or below it. */
  lemma LogApart(dir: Path, file: Path)
    ensures !Under(Child(dir, Name(file)), LogFile(dir, file))
    ensures !Under(LogFile(dir, file), Child(dir, Name(file)))
  {
    var dest := Child(dir, Name(file));
    var logFile := LogFile(dir, file);
    ChildParts(dir, Name(file));
    ChildParts(dir, Name(file) + ".log");
    assert |dest| == |logFile|;
    assert |Name(logFile)| != |Name(dest)|;
  }

  /** The exception of a task whose file could not be moved to the working folder. */
  function MoveRefused(source: Path, dest: Path): Throwable
  {
    Throwable(Some("Unable to move " + PathString(source) + " to " + PathString(dest)), [])
  }

  /** FileCallable.call: the file moved into the working folder over any file of its name, then processed there. */
  function AfterCall(cfg: Settings, hook: Path -> ProcessOutcome, st: State, source: Path): (r: (State, ProcessingResult))
    ensures r.0.completed == st.completed && r.0.failed == st.failed
  {
    var (ns, dir) := Lazy(cfg, st.nodes, st.working, "working");
    var dest := Child(dir, Name(source));
    var ns1 := AfterDelete(ns, cfg.pinned, dest);
    var st1 := State(AfterRename(ns1, cfg.pinned, source, dest), st.completed, st.failed, Some(dir));
    if !CanRename(ns1, cfg.pinned, source, dest) then (st1, Fail(source, Some(MoveRefused(source, dest))))
    else (st1, Processed(hook, dest))
  }

  /** processingCompleted: a result without a file does nothing; otherwise it completes or fails the file. */
  function AfterCompleted(cfg: Settings, st: State, result: ProcessingResult): State
  {
    if result.sourceFile.None? then st
    else if result.successful then AfterComplete(cfg, st, result.sourceFile.value)
    else AfterFail(cfg, st, result.sourceFile.value, result.exception)
  }

  /** The tasks of a FileSetFound, run one after the other. */
  function AfterCalls(cfg: Settings, hook: Path -> ProcessOutcome, st: State, files: seq<Path>): (r: (State, seq<ProcessingResult>))
    ensures |r.1| == |files|
  {
    if files == [] then (st, [])
    else
      var p := AfterCalls(cfg, hook, st, files[..|files| - 1]);
      var q := AfterCall(cfg, hook, p.0, files[|files| - 1]);
      (q.0, p.1 + [q.1])
  }

  /** The result collector over the results in the order they finish. */
  function AfterResults(cfg: Settings, st: State, results: seq<ProcessingResult>): State
  {
    if results == [] then st
    else AfterCompleted(cfg, AfterResults(cfg, st, results[..|results| - 1]), results[|results| - 1])
  }

  /** The IllegalArgumentException, without a message, that Executors.newFixedThreadPool throws for a pool size below 1. */
  const PoolSizeRefused := Throwable(None, [])

  /**
   * Why validateAndStart refuses to start, checked in its order: the watch
   * folder, then the hook doValidate, then the pool size the executor is
   * built with.
   */
  function StartRefusal(cfg: Settings, ns: Nodes, validate: Option<Throwable>, maxConcurrent: int): (r: Option<Throwable>)
    ensures cfg.baseFolder.None? ==> r == Some(Throwable(Some("Watch folder is null"), []))
    ensures cfg.baseFolder.Some? && !IsDirectory(ns, cfg.baseFolder.value) ==>
      r == Some(Throwable(Some("Watch folder " + PathString(cfg.baseFolder.value) + " is not a valid directory."), []))
    ensures cfg.baseFolder.Some? && IsDirectory(ns, cfg.baseFolder.value) && validate.Some? ==> r == validate
    ensures cfg.baseFolder.Some? && IsDirectory(ns, cfg.baseFolder.value) && validate.None? ==>
      r == (if maxConcurrent <= 0 then Some(PoolSizeRefused) else None)
  {
    if cfg.baseFolder.None? then Some(Throwable(Some("Watch folder is null"), []))
    else if !IsDirectory(ns, cfg.baseFolder.value) then
      Some(Throwable(Some("Watch folder " + PathString(cfg.baseFolder.value) + " is not a valid directory."), []))
    else if validate.Some? then validate
    else if maxConcurrent <= 0 then Some(PoolSizeRefused)
    else None
  }

  class PipelineManager {
    const fs: FileSystem
    var baseFolder: Option<Path>
    var maxConcurrent: int
    var completedFolder: Option<Path>
    var failedFolder: Option<Path>
    var workingFolder: Option<Path>
    var deleteOnSuccess: bool
    var validExtensions: seq<string>
    var pollIntervalSeconds: int
    /** Whether validateAndStart got as far as starting the executor and the result collector. */
    var started: bool

    function Config(): Settings
      reads this, fs
    {
      Settings(baseFolder, deleteOnSuccess, fs.pinned)
    }

    function Snapshot(): State
      reads this, fs
    {
      State(fs.nodes, completedFolder, failedFolder, workingFolder)
    }

    constructor (fs: FileSystem)
      ensures this.fs == fs && baseFolder.None? && maxConcurrent == 1
      ensures completedFolder.None? && failedFolder.None? && workingFolder.None?
      ensures !deleteOnSuccess && validExtensions == [] && pollIntervalSeconds == 30 && !started
    {
      this.fs := fs;
      baseFolder := None;
      maxConcurrent := 1;
      completedFolder := None;
      failedFolder := None;
      workingFolder := None;
      deleteOnSuccess := false;
      validExtensions := [];
      pollIntervalSeconds := 30;
      started := false;
    }

    method SetWatchFolder(f: Option<Path>)
      modifies this`baseFolder
      ensures baseFolder == f
    {
      baseFolder := f;
    }

    method SetMaxConcurrent(n: int)
      modifies this`maxConcurrent
      ensures maxConcurrent == n
    {
      maxConcurrent := n;
    }

    method SetDeleteOnSuccess(v: bool)
      modifies this`deleteOnSuccess
      ensures deleteOnSuccess == v
    {
      deleteOnSuccess := v;
    }

    method SetValidExtensions(xs: seq<string>)
      modifies this`validExtensions
      ensures validExtensions == xs
    {
      validExtensions := xs;
    }

    method SetPollIntervalSeconds(n: int)
      modifies this`pollIntervalSeconds
      ensures pollIntervalSeconds == n
    {
      pollIntervalSeconds := n;
    }

    /** validateAndStart, with what doValidate throws given as `validate`. */
    method ValidateAndStart(validate: Option<Throwable>) returns (thrown: Option<Throwable>)
      modifies this`started
      ensures thrown == StartRefusal(Config(), fs.nodes, validate, maxConcurrent)
      ensures started == (old(started) || thrown.None?)
    {
      if baseFolder.None? {
        return Some(Throwable(Some("Watch folder is null"), []));
      }
      if !IsDirectory(fs.nodes, baseFolder.value) {
        return Some(Throwable(Some("Watch folder " + PathString(baseFolder.value) + " is not a valid directory."), []));
      }
      if validate.Some? {
        return validate;
      }
      if maxConcurrent <= 0 {
        return Some(PoolSizeRefused);
      }
      started := true;
      thrown := None;
    }

    method GetCompletedFolder() returns (dir: Path)
      modifies this`completedFolder, fs
      ensures (fs.nodes, dir) == Lazy(Config(), old(fs.nodes), old(completedFolder), "completed")
      ensures completedFolder == Some(dir)
    {
      if completedFolder.None? {
        completedFolder := Some(SubFolder(Config(), "completed"));
        var made := fs.MkDirs(completedFolder.value);
      }
      dir := completedFolder.value;
    }

    method GetFailedFolder() returns (dir: Path)
      modifies this`failedFolder, fs
      ensures (fs.nodes, dir) == Lazy(Config(), old(fs.nodes), old(failedFolder), "failed")
      ensures failedFolder == Some(dir)
    {
      if failedFolder.None? {
        failedFolder := Some(SubFolder(Config(), "failed"));
        var made := fs.MkDirs(failedFolder.value);
      }
      dir := failedFolder.value;
    }

    method GetWorkingFolder() returns (dir: Path)
      modifies this`workingFolder, fs
      ensures (fs.nodes, dir) == Lazy(Config(), old(fs.nodes), old(workingFolder), "working")
      ensures workingFolder == Some(dir)
    {
      if workingFolder.None? {
        workingFolder := Some(SubFolder(Config(), "working"));
        var made := fs.MkDirs(workingFolder.value);
      }
      dir := workingFolder.value;
    }

    method Complete(file: Path)
      modifies this`completedFolder, fs
      ensures Snapshot() == AfterComplete(Config(), old(Snapshot()), file)
    {
      if file !in fs.nodes {
        return;
      }
      if deleteOnSuccess {
        var deleted := fs.Delete(file);
        return;
      }
      var dir := GetCompletedFolder();
      var dest := Child(dir, Name(file));
      if dest in fs.nodes {
        var deleted := fs.Delete(dest);
      }
      var moved := fs.Rename(file, dest);
    }

    method FailFile(file: Path, e: Option<Throwable>)
      modifies this`failedFolder, fs
      ensures Snapshot() == AfterFail(Config(), old(Snapshot()), file, e)
    {
      var dir := GetFailedFolder();
      var dest := Child(dir, Name(file));
      var logFile := LogFile(dir, file);
      if dest in fs.nodes {
        var deleted := fs.Delete(dest);
      }
      if logFile in fs.nodes {
        var deleted := fs.Delete(logFile);
      }
      var moved := fs.Rename(file, dest);
      if e.Some? {
        var written := fs.Write(logFile, LogLines(e.value));
      }
    }

    /** FileCallable.call for one file, with doProcess given as `hook`. */
    method Call(hook: Path -> ProcessOutcome, source: Path) returns (result: ProcessingResult)
      modifies this`workingFolder, fs
      ensures (Snapshot(), result) == AfterCall(Config(), hook, old(Snapshot()), source)
    {
      var dir := GetWorkingFolder();
      var dest := Child(dir, Name(source));
      if dest in fs.nodes {
        var deleted := fs.Delete(dest);
      }
      var moved := fs.Rename(source, dest);
      if !moved {
        return Fail(source, Some(MoveRefused(source, dest)));
      }
      result := Processed(hook, dest);
    }

    method ProcessingCompleted(result: ProcessingResult)
      modifies this`completedFolder, this`failedFolder, fs
      ensures Snapshot() == AfterCompleted(Config(), old(Snapshot()), result)
    {
      if result.sourceFile.Some? {
        if result.successful {
          Complete(result.sourceFile.value);
        } else {
          FailFile(result.sourceFile.value, result.exception);
        }
      }
    }

    /**
     * fileSetFound: a task per file of the event, run in the order of the
     * event. Before a successful validateAndStart there is no executor, so
     * the first submit throws NullPointerException and nothing is done.
     */
    method FileSetFound(hook: Path -> ProcessOutcome, files: seq<Path>) returns (r: Result<seq<ProcessingResult>>)
      modifies this`workingFolder, fs
      ensures !started && files != [] ==> r == Err(NullPointerException) && Snapshot() == old(Snapshot())
      ensures started || files == [] ==> r.Ok? && (Snapshot(), r.value) == AfterCalls(Config(), hook, old(Snapshot()), files)
    {
      if !started && files != [] {
        return Err(NullPointerException);
      }
      ghost var st := Snapshot();
      var results := [];
      var k := 0;
      while k < |files|
        invariant 0 <= k <= |files|
        invariant Config() == old(Config())
        invariant AfterCalls(Config(), hook, st, files[..k]) == (Snapshot(), results)
      {
        assert files[..k + 1][..k] == files[..k];
        var res := Call(hook, files[k]);
        results := results + [res];
        k := k + 1;
      }
      assert files[..k] == files;
      r := Ok(results);
    }

    /** fileFound: one task for the file of the event; NullPointerException before a successful start. */
    method FileFound(hook: Path -> ProcessOutcome, file: Path) returns (r: Result<ProcessingResult>)
      modifies this`workingFolder, fs
      ensures !started ==> r == Err(NullPointerException) && Snapshot() == old(Snapshot())
      ensures started ==> r.Ok? && (Snapshot(), r.value) == AfterCall(Config(), hook, old(Snapshot()), file)
    {
      if !started {
        return Err(NullPointerException);
      }
      var result := Call(hook, file);
      r := Ok(result);
    }

    /** The result collector: each finished result in turn. */
    method CollectResults(results: seq<ProcessingResult>)
      modifies this`completedFolder, this`failedFolder, fs
      ensures Snapshot() == AfterResults(Config(), old(Snapshot()), results)
    {
      ghost var st := Snapshot();
      var k := 0;
      while k < |results|
        invariant 0 <= k <= |results|
        invariant Config() == old(Config())
        invariant AfterResults(Config(), st, results[..k]) == Snapshot()
      {
        assert results[..k + 1][..k] == results[..k];
        ProcessingCompleted(results[k]);
        k := k + 1;
      }
      assert results[..k] == results;
    }
  }

  // ---------------------------------------------------------------- properties

  /** The three folders are base/completed, base/failed and base/working, and a folder once fixed stays as it is. */
  lemma FoldersFixedOnFirstAccess(cfg: Settings, ns: Nodes, cur: Option<Path>, name: string)
    ensures var (ns1, dir) := Lazy(cfg, ns, cur, name);
      Lazy(cfg, ns1, Some(dir), name) == (ns1, dir)
      && (cur.None? ==>
            dir == Child(cfg.baseFolder.GetOr([]), name) && (CanMkDirs(ns, dir) ==> IsDirectory(ns1, dir)))
  {
  }

  /** Completing a file that has vanished does nothing, so completing twice is harmless. */
  lemma CompleteVanished(cfg: Settings, st: State, file: Path)
    requires file !in st.nodes
    ensures AfterComplete(cfg, st, file) == st
  {
  }

  /**
   * Without delete-on-success, a file that can be moved ends up in the
   * completed folder under its own name, with its contents; a second
   * complete of it then changes nothing.
   */
  lemma CompleteMovesIntoCompleted(cfg: Settings, st: State, file: Path)
    requires file in st.nodes && !cfg.deleteOnSuccess
    requires var (ns, dir) := Lazy(cfg, st.nodes, st.completed, "completed");
      var dest := Child(dir, Name(file));
      CanRename(AfterDelete(ns, cfg.pinned, dest), cfg.pinned, file, dest)
    ensures var r := AfterComplete(cfg, st, file);
      var dest := Child(r.completed.value, Name(file));
      r.completed.Some? && file !in r.nodes && dest in r.nodes && r.nodes[dest] == st.nodes[file]
      && AfterComplete(cfg, r, file) == r
  {
    var (ns, dir) := Lazy(cfg, st.nodes, st.completed, "completed");
    var dest := Child(dir, Name(file));
    var ns1 := AfterDelete(ns, cfg.pinned, dest);
    RenameHandsOver(ns1, cfg.pinned, file, dest);
    assert ns1[file] == st.nodes[file];
  }

  /** With delete-on-success, completing a file deletes it when the disk allows. */
  lemma CompleteDeletes(cfg: Settings, st: State, file: Path)
    requires cfg.deleteOnSuccess && CanDelete(st.nodes, cfg.pinned, file)
    ensures var r := AfterComplete(cfg, st, file);
      file !in r.nodes && r.completed == st.completed
  {
  }

  /** A failed file that can be moved ends up in the failed folder under its own name, with its contents. */
  lemma FailMovesIntoFailed(cfg: Settings, st: State, file: Path, e: Option<Throwable>)
    requires file in st.nodes
    requires var (ns, dir) := Lazy(cfg, st.nodes, st.failed, "failed");
      CanRename(Cleared(cfg, ns, dir, file), cfg.pinned, file, Child(dir, Name(file)))
    ensures var r := AfterFail(cfg, st, file, e);
      var dest := Child(r.failed.value, Name(file));
      r.failed.Some? && file !in r.nodes && dest in r.nodes && r.nodes[dest] == st.nodes[file]
  {
    var (ns, dir) := Lazy(cfg, st.nodes, st.failed, "failed");
    var dest := Child(dir, Name(file));
    var ns1 := Cleared(cfg, ns, dir, file);
    RenameHandsOver(ns1, cfg.pinned, file, dest);
    assert ns1[file] == st.nodes[file];
    var ns2 := AfterRename(ns1, cfg.pinned, file, dest);
    LogApart(dir, file);
    ChildParts(dir, Name(file) + ".log");
    assert LogFile(dir, file) != file by {
      assert |Name(LogFile(dir, file))| != |Name(file)|;
    }
    assert AfterFail(cfg, st, file, e).nodes
      == if e.Some? then AfterWrite(ns2, cfg.pinned, LogFile(dir, file), LogLines(e.value)) else ns2;
  }

  /** With an exception, the log beside the failed file holds its message and stack trace, when the disk lets it be written. */
  lemma FailWritesLog(cfg: Settings, st: State, file: Path, e: Throwable)
    requires var (ns, dir) := Lazy(cfg, st.nodes, st.failed, "failed");
      var ns1 := AfterRename(Cleared(cfg, ns, dir, file), cfg.pinned, file, Child(dir, Name(file)));
      CanWrite(ns1, cfg.pinned, LogFile(dir, file))
    ensures var r := AfterFail(cfg, st, file, Some(e));
      var logFile := LogFile(r.failed.value, file);
      IsFile(r.nodes, logFile) && r.nodes[logFile].lines == [e.message.GetOr("null")] + e.trace
  {
  }

  /** Without an exception no log is written: the failed folder holds a log only if an old one could not be deleted. */
  lemma FailWithoutExceptionWritesNoLog(cfg: Settings, st: State, file: Path)
    requires var (ns, dir) := Lazy(cfg, st.nodes, st.failed, "failed");
      !Under(file, LogFile(dir, file))
    ensures var (ns, dir) := Lazy(cfg, st.nodes, st.failed, "failed");
      var logFile := LogFile(dir, file);
      logFile in AfterFail(cfg, st, file, None).nodes ==> logFile in ns && !CanDelete(ns, cfg.pinned, logFile)
  {
    var (ns, dir) := Lazy(cfg, st.nodes, st.failed, "failed");
    var dest := Child(dir, Name(file));
    LogApart(dir, file);
    RenameKeepsOthers(Cleared(cfg, ns, dir, file), cfg.pinned, file, dest, LogFile(dir, file));
  }

  /** A task whose file cannot be moved to the working folder fails with the source file and the move's exception. */
  lemma CallMoveRefused(cfg: Settings, hook: Path -> ProcessOutcome, st: State, source: Path)
    requires var (ns, dir) := Lazy(cfg, st.nodes, st.working, "working");
      var dest := Child(dir, Name(source));
      !CanRename(AfterDelete(ns, cfg.pinned, dest), cfg.pinned, source, dest)
    ensures var r := AfterCall(cfg, hook, st, source);
      var dest := Child(r.0.working.value, Name(source));
      r.1 == Fail(source, Some(MoveRefused(source, dest)))
  {
  }

  /** A task whose file is moved processes the working copy, and what the processing throws becomes a failure of that copy. */
  lemma CallProcessesWorkingCopy(cfg: Settings, hook: Path -> ProcessOutcome, st: State, source: Path)
    requires var (ns, dir) := Lazy(cfg, st.nodes, st.working, "working");
      var dest := Child(dir, Name(source));
      CanRename(AfterDelete(ns, cfg.pinned, dest), cfg.pinned, source, dest)
    ensures var r := AfterCall(cfg, hook, st, source);
      var dest := Child(r.0.working.value, Name(source));
      source !in r.0.nodes && dest in r.0.nodes
      && (hook(dest).Returned? ==> r.1 == hook(dest).result)
      && (hook(dest).Threw? ==> r.1 == Fail(dest, Some(hook(dest).error)))
  {
    var (ns, dir) := Lazy(cfg, st.nodes, st.working, "working");
    var dest := Child(dir, Name(source));
    RenameHandsOver(AfterDelete(ns, cfg.pinned, dest), cfg.pinned, source, dest);
  }

  /** A result routes its file by its outcome: success completes it, failure fails it with the result's exception, no file does nothing. */
  lemma ResultRouting(cfg: Settings, st: State, file: Path, e: Throwable)
    ensures AfterCompleted(cfg, st, Success(file)) == AfterComplete(cfg, st, file)
    ensures AfterCompleted(cfg, st, Fail(file, Some(e))) == AfterFail(cfg, st, file, Some(e))
    ensures AfterCompleted(cfg, st, ProcessingResult(None, true, None)) == st
  {
  }

  /** Collecting results one batch after another is collecting them all at once. */
  lemma {:induction false} ResultsCompose(cfg: Settings, st: State, a: seq<ProcessingResult>, b: seq<ProcessingResult>)
    ensures AfterResults(cfg, st, a + b) == AfterResults(cfg, AfterResults(cfg, st, a), b)
    decreases |b|
  {
    if b == [] {
      assert a + b == a;
    } else {
      assert (a + b)[..|a + b| - 1] == a + b[..|b| - 1];
      ResultsCompose(cfg, st, a, b[..|b| - 1]);
    }
  }

  /** Results without a file leave everything as it was. */
  lemma {:induction false} FilelessResultsIgnored(cfg: Settings, st: State, results: seq<ProcessingResult>)
    requires forall i :: 0 <= i < |results| ==> results[i].sourceFile.None?
    ensures AfterResults(cfg, st, results) == st
  {
    if results != [] {
      FilelessResultsIgnored(cfg, st, results[..|results| - 1]);
    }
  }
}

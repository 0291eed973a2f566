// What one DirectoryPoller.runCycle does, stated as functions over a
// value: the poller's settings, the state a cycle changes, and the inputs
// it takes from the world (the clock, directory listings, file locks,
// filter answers and when shutdown is requested). The class in poller.dfy
// performs the same cycle step by step and is proved equal to it.

module PollerCycle {
  import opened Text
  import opened Files
  import opened JavaInt
  import opened Outcomes
  import opened Events
  import opened PostProcessMarkers
  import opened PollerFilters

  /** What RandomAccessFile(orig, "rw").getChannel().tryLock() comes to. */
  datatype LockOutcome =
    | Acquired
    /** tryLock returned null: another process holds the file. */
    | Locked
    /** FileNotFoundException: the file cannot be opened for writing. */
    | OpenFailed
    /** IOException while locking. */
    | LockFailed

  /**
   * The inputs of a cycle. `now` is the one clock reading of the cycle;
   * `listing` gives the names File.listFiles returns for a directory of a
   * disk, in the order the poller receives them (after sorting, when a sort
   * comparator is set); `stopAt`, when present, is the length of the signal
   * log at which shutdown() is called from another thread.
   */
  datatype Env = Env(
    now: int,
    listing: (Nodes, Path) -> seq<string>,
    lock: Path -> LockOutcome,
    filters: FilterOracle,
    stopAt: Option<nat>)

  /** The fields of the poller that a cycle reads and never changes. */
  datatype Settings = Settings(
    dirs: seq<Path>,
    filter: Filter,
    autoMove: bool,
    sendSingleFileEvent: bool,
    timeBasedOnLastLookup: bool,
    bypassLockedFiles: bool,
    postProcessDelayMinutes: int,
    pinned: set<Path>)

  /** The disk and the fields of the poller that a cycle changes, with the signals sent so far. */
  datatype State = State(
    nodes: Nodes,
    fileSizeMap: map<Path, int>,
    baseTime: seq<int>,
    autoMoveDirs: map<Path, Path>,
    log: seq<Signal>,
    shutdownRequested: bool)

  /** notifyEvent: the signal is sent, and shutdown may arrive right after it. */
  function Notify(env: Env, st: State, s: Signal): (r: State)
    ensures r.log == st.log + [s]
    ensures r == st.(log := r.log, shutdownRequested := r.shutdownRequested)
    ensures st.shutdownRequested ==> r.shutdownRequested
  {
    var log := st.log + [s];
    st.(log := log, shutdownRequested := st.shutdownRequested || (env.stopAt.Some? && |log| >= env.stopAt.value))
  }

  /** skip: missing, hidden, an empty file, or a name starting with a dot. */
  predicate Skip(ns: Nodes, f: Path)
    ensures !Skip(ns, f) ==> f in ns && !IsHidden(ns, f) && !StartsWith(Name(f), ".")
    ensures !Skip(ns, f) && IsFile(ns, f) ==> Length(ns, f) != 0
  {
    !(IsFile(ns, f) || IsDirectory(ns, f))
    || IsHidden(ns, f)
    || (IsFile(ns, f) && Length(ns, f) == 0)
    || StartsWith(Name(f), ".")
  }

  /**
   * The loop of isScanDir over the polled directories: an equal path
   * matches; comparing with a polled directory that does not exist raises
   * an IOException, which ends the loop with false.
   */
  predicate SameAsScanDir(dirs: seq<Path>, ns: Nodes, f: Path)
    ensures SameAsScanDir(dirs, ns, f) ==> f in dirs
  {
    if dirs == [] then false
    else if dirs[0] == f then true
    else if dirs[0] !in ns then false
    else SameAsScanDir(dirs[1..], ns, f)
  }

  /** isScanDir: only a directory, and only one of the polled directories. */
  predicate IsScanDir(dirs: seq<Path>, ns: Nodes, f: Path)
    ensures IsScanDir(dirs, ns, f) ==> IsDirectory(ns, f) && f in dirs
    ensures IsDirectory(ns, f) && dirs != [] && dirs[0] == f ==> IsScanDir(dirs, ns, f)
  {
    IsDirectory(ns, f) && SameAsScanDir(dirs, ns, f)
  }

  /** getPostProcessDelayMinutes() * 60000, in long arithmetic. */
  function DelayMillis(cfg: Settings): int
  {
    Wrap64(cfg.postProcessDelayMinutes * 60000)
  }

  /**
   * DirectoryPoller.isPostProcessFileExpired as written: true for a
   * non-empty readable file changed LESS than the delay ago.
   */
  predicate PollerExpired(cfg: Settings, env: Env, ns: Nodes, p: Path)
    ensures DelayMillis(cfg) <= 0 ==> !PollerExpired(cfg, env, ns, p)
    ensures PollerExpired(cfg, env, ns, p) ==>
      IsFile(ns, p) && Length(ns, p) > 0 && Wrap64(env.now - LastModified(ns, p)) < DelayMillis(cfg)
  {
    DelayMillis(cfg) > 0 && IsFile(ns, p) && CanRead(ns, p) && Length(ns, p) > 0
    && Wrap64(env.now - LastModified(ns, p)) < DelayMillis(cfg)
  }

  /** postProcessDelayPending as written: the expiry test applied to the file itself, not to its marker. */
  predicate Pending(cfg: Settings, env: Env, ns: Nodes, f: Path)
    ensures Pending(cfg, env, ns, f) ==> IsFile(ns, f) && DelayMillis(cfg) > 0
    ensures DelayMillis(cfg) <= 0 ==> !Pending(cfg, env, ns, f)
  {
    PollerExpired(cfg, env, ns, f)
  }

  /** The FileFilter of addAllFiles. */
  predicate Admitted(cfg: Settings, env: Env, ns: Nodes, f: Path)
  {
    !Skip(ns, f) && !IsScanDir(cfg.dirs, ns, f) && !Pending(cfg, env, ns, f)
    && (IsDirectory(ns, f) || IsFile(ns, f))
  }

  /** f lies strictly below orig and addAllFiles(orig) walks down to it. */
  predicate Reached(cfg: Settings, env: Env, ns: Nodes, orig: Path, f: Path)
  {
    |f| > |orig| && f[..|orig|] == orig
    && (forall k :: |orig| < k <= |f| ==> Admitted(cfg, env, ns, f[..k]))
    && (forall k :: |orig| < k < |f| ==> IsDirectory(ns, f[..k]))
  }

  /**
   * addAllFiles lists every directory it enters; listFiles answers null
   * for one that cannot be read, and the loop over it fails.
   */
  predicate WalkFails(cfg: Settings, env: Env, ns: Nodes, orig: Path)
  {
    exists d :: d in ns && IsDirectory(ns, d) && !CanRead(ns, d)
      && (d == orig || Reached(cfg, env, ns, orig, d))
  }

  /** The files whose size decides whether a candidate is stable. */
  function FilesToCheck(cfg: Settings, env: Env, ns: Nodes, orig: Path): set<Path>
  {
    if IsDirectory(ns, orig) then set f | f in ns && IsFile(ns, f) && Reached(cfg, env, ns, orig, f)
    else {orig}
  }

  /** A file's size was recorded by the last look at it and has not changed since. */
  predicate Stable(sizes: map<Path, int>, ns: Nodes, f: Path)
  {
    f in sizes && sizes[f] == Length(ns, f)
  }

  predicate AllStable(sizes: map<Path, int>, ns: Nodes, files: set<Path>)
  {
    forall f :: f in files ==> Stable(sizes, ns, f)
  }

  /**
   * fileSizeMap after the stability loop over `files`: every checked entry
   * is taken out, and put back with the current length unless the file was
   * stable (or, as written, pending).
   */
  function CheckedSizes(cfg: Settings, env: Env, ns: Nodes, sizes: map<Path, int>, files: set<Path>): map<Path, int>
  {
    map f | f in sizes.Keys + files
            && (f !in files || (!Stable(sizes, ns, f) && !Pending(cfg, env, ns, f)))
      :: if f in files then Length(ns, f) else sizes[f]
  }

  /** The outcome of a step of the cycle: the state, the files it moved, and the exception that ends the cycle. */
  datatype Pass = Pass(st: State, moved: seq<string>, thrown: Option<Exception>)

  /** The exception signals of the auto-move loop, with the messages the poller gives them. */
  function MoveFailure(orig: Path, dest: Path): Signal
  {
    ExceptionSignal(AutomoveException(orig, dest, "Could not move " + Name(orig) + " to " + PathString(dest)))
  }

  function MarkerFailure(orig: Path, dest: Path): Signal
  {
    ExceptionSignal(AutomoveException(orig, dest,
      "Could not remove " + Name(MarkerFile(orig)) + " after moving file " + Name(orig) + " to " + PathString(dest)))
  }

  function LockUnverified(orig: Path, dest: Path): Signal
  {
    ExceptionSignal(AutomoveException(orig, dest, "Could not verify lock on " + Name(orig)))
  }

  function LockAttemptFailed(orig: Path, dest: Path): Signal
  {
    ExceptionSignal(AutomoveException(orig, dest, "Tentative lock attempt failed on " + Name(orig)))
  }

  function DeleteFailure(orig: Path, dest: Path): Signal
  {
    ExceptionSignal(AutomoveDeleteException(orig, dest, "Could not delete " + PathString(dest)))
  }

  function CreateFailure(am: Path): Exception
  {
    RuntimeException("Could not create the directory " + PathString(am))
  }

  /** The AppleDouble companion of a file: "._" before its name, in the same directory. */
  function AppleDouble(orig: Path): Path
  {
    Child(Parent(orig), "._" + Name(orig))
  }

  /** After the rename: the marker of the file removed, a failure to remove it signalled. */
  function MarkerCleared(cfg: Settings, env: Env, st: State, orig: Path, dest: Path): (r: State)
    ensures r.nodes == AfterDelete(st.nodes, cfg.pinned, MarkerFile(orig))
    ensures r.fileSizeMap == st.fileSizeMap && r.baseTime == st.baseTime && r.autoMoveDirs == st.autoMoveDirs
  {
    var marker := MarkerFile(orig);
    var st1 := st.(nodes := AfterDelete(st.nodes, cfg.pinned, marker));
    if marker in st.nodes && !CanDelete(st.nodes, cfg.pinned, marker) then Notify(env, st1, MarkerFailure(orig, dest))
    else st1
  }

  /** Last of a move: the FileMoved signal, then the AppleDouble companion deleted. */
  function Announced(cfg: Settings, env: Env, st: State, orig: Path, dest: Path): (r: State)
    ensures r.nodes == AfterDelete(st.nodes, cfg.pinned, AppleDouble(orig))
    ensures r.log == st.log + [FileMovedSignal(FileMovedEvent(orig, dest))]
    ensures r.fileSizeMap == st.fileSizeMap && r.baseTime == st.baseTime && r.autoMoveDirs == st.autoMoveDirs
  {
    var st1 := Notify(env, st, FileMovedSignal(FileMovedEvent(orig, dest)));
    st1.(nodes := AfterDelete(st1.nodes, cfg.pinned, AppleDouble(orig)))
  }

  /** The rename and what follows it: marker removal, the FileMoved signal, the AppleDouble file. */
  function Relocate(cfg: Settings, env: Env, st: State, orig: Path, dest: Path): (r: Pass)
    ensures r.thrown.None? && |r.moved| <= 1 && r.st.baseTime == st.baseTime
  {
    if !CanRename(st.nodes, cfg.pinned, orig, dest) then Pass(Notify(env, st, MoveFailure(orig, dest)), [], None)
    else
      var st1 := MarkerCleared(cfg, env, st.(nodes := Moved(st.nodes, orig, dest)), orig, dest);
      Pass(Announced(cfg, env, st1, orig, dest), [Name(dest)], None)
  }

  /** The checks on a candidate once its destination is free: skip, lock, stability. */
  function Examine(cfg: Settings, env: Env, st: State, orig: Path, dest: Path): (r: Pass)
    ensures |r.moved| <= 1 && r.st.baseTime == st.baseTime
  {
    var ns := st.nodes;
    if Skip(ns, orig) || IsScanDir(cfg.dirs, ns, orig) || Pending(cfg, env, ns, orig) then Pass(st, [], None)
    else
      var lock := if IsFile(ns, orig) && cfg.bypassLockedFiles then env.lock(orig) else Acquired;
      match lock
      case Locked => Pass(st, [], None)
      case OpenFailed =>
        Pass(Notify(env, st, LockUnverified(orig, dest)), [], None)
      case LockFailed =>
        Pass(Notify(env, st, LockAttemptFailed(orig, dest)), [], None)
      case Acquired =>
        if IsDirectory(ns, orig) && WalkFails(cfg, env, ns, orig) then Pass(st, [], Some(NullPointerException))
        else
          var files := FilesToCheck(cfg, env, ns, orig);
          var st1 := st.(fileSizeMap := CheckedSizes(cfg, env, ns, st.fileSizeMap, files));
          if !AllStable(st.fileSizeMap, ns, files) then Pass(st1, [], None)
          else Relocate(cfg, env, st1, orig, dest)
  }

  /** One iteration of the auto-move loop, for the listed name `name`. */
  function TryMove(cfg: Settings, env: Env, st: State, dir: Path, am: Path, name: string): (r: Pass)
    ensures |r.moved| <= 1 && r.st.baseTime == st.baseTime
  {
    var orig := Child(dir, name);
    var dest := Child(am, name);
    if dest in st.nodes && !CanDelete(st.nodes, cfg.pinned, dest) then
      Pass(Notify(env, st, DeleteFailure(orig, dest)), [], None)
    else
      Examine(cfg, env, st.(nodes := AfterMkDirs(AfterDelete(st.nodes, cfg.pinned, dest), am)), orig, dest)
  }

  /** The auto-move loop over the listed names, collecting the names moved, in order. */
  function TryAll(cfg: Settings, env: Env, st: State, dir: Path, am: Path, names: seq<string>): (r: Pass)
    ensures |r.moved| <= |names| && r.st.baseTime == st.baseTime
  {
    if names == [] then Pass(st, [], None)
    else
      var p := TryAll(cfg, env, st, dir, am, names[..|names| - 1]);
      if p.thrown.Some? then p
      else
        var q := TryMove(cfg, env, p.st, dir, am, names[|names| - 1]);
        Pass(q.st, p.moved + q.moved, q.thrown)
  }

  /** One marker of the quarantine directory, as the marker loop treats it. */
  function SweepOne(cfg: Settings, env: Env, st: State, am: Path, m: string): (r: Pass)
    requires IsMarkerName(m)
    ensures r.moved == [] && r.st.baseTime == st.baseTime && r.st.log == st.log
  {
    var marker := Child(am, m);
    var orig := Child(am, OriginalName(m));
    var ns := st.nodes;
    if orig !in ns then Pass(st.(nodes := AfterDelete(ns, cfg.pinned, marker)), [], None)
    else if !PollerExpired(cfg, env, ns, marker) then Pass(st, [], None)
    else
      var post := MarkerContents(ns, marker);
      if "action" !in post then Pass(st, [], Some(NullPointerException))
      else if post["action"] == "delete" then
        Pass(st.(nodes := AfterDelete(AfterDelete(ns, cfg.pinned, orig), cfg.pinned, marker)), [], None)
      else if post["action"] == "move" then
        if "dest" !in post then Pass(st, [], Some(NullPointerException))
        else Pass(st.(nodes := AfterDelete(AfterRename(ns, cfg.pinned, orig, ParsePath(post["dest"])), cfg.pinned, marker)), [], None)
      else Pass(st.(nodes := AfterDelete(ns, cfg.pinned, marker)), [], None)
  }

  /** The names the marker filter keeps. */
  function MarkerNames(names: seq<string>): (r: seq<string>)
    ensures forall i :: 0 <= i < |r| ==> IsMarkerName(r[i])
  {
    if names == [] then []
    else MarkerNames(names[..|names| - 1]) + (if IsMarkerName(names[|names| - 1]) then [names[|names| - 1]] else [])
  }

  /** File.listFiles answers null for a path that is not a readable directory. */
  predicate Listable(ns: Nodes, d: Path)
  {
    IsDirectory(ns, d) && CanRead(ns, d)
  }

  /** The marker files of the quarantine directory; none when it cannot be listed. */
  function Markers(env: Env, ns: Nodes, am: Path): (r: seq<string>)
    ensures forall i :: 0 <= i < |r| ==> IsMarkerName(r[i])
  {
    if Listable(ns, am) then MarkerNames(env.listing(ns, am)) else []
  }

  /** The marker loop, ended by the first exception. */
  function SweepAll(cfg: Settings, env: Env, st: State, am: Path, ms: seq<string>): (r: Pass)
    requires forall i :: 0 <= i < |ms| ==> IsMarkerName(ms[i])
    ensures r.moved == [] && r.st.baseTime == st.baseTime && r.st.log == st.log
  {
    if ms == [] then Pass(st, [], None)
    else
      var p := SweepAll(cfg, env, st, am, ms[..|ms| - 1]);
      if p.thrown.Some? then p else SweepOne(cfg, env, p.st, am, ms[|ms| - 1])
  }

  /** getAutoMoveDirectory: the configured directory, or "received" inside the polled one. */
  function AutoMoveDirOf(m: map<Path, Path>, dir: Path): Path
  {
    if dir in m then m[dir] else Child(dir, "received")
  }

  predicate IsTimeBased(f: Filter)
  {
    f.TimeFilter?
  }

  /** The largest modification time among the files, starting from the old base time. */
  function MaxModified(b: int, ns: Nodes, dir: Path, files: seq<string>): (r: int)
    ensures r >= b
    ensures forall i :: 0 <= i < |files| ==> r >= LastModified(ns, Child(dir, files[i]))
    ensures r == b || exists i :: 0 <= i < |files| && r == LastModified(ns, Child(dir, files[i]))
  {
    if files == [] then b
    else
      var m := MaxModified(b, ns, dir, files[..|files| - 1]);
      var t := LastModified(ns, Child(dir, files[|files| - 1]));
      if t > m then t else m
  }

  /** The base times after a lookup of directory i: in time-based mode either the lookup time or the newest file seen. */
  function NextBaseTime(cfg: Settings, env: Env, st: State, i: nat, dir: Path, files: seq<string>): (r: seq<int>)
    requires i < |st.baseTime|
    ensures |r| == |st.baseTime|
  {
    if !IsTimeBased(cfg.filter) then st.baseTime
    else if cfg.timeBasedOnLastLookup then st.baseTime[i := env.now]
    else st.baseTime[i := MaxModified(st.baseTime[i], st.nodes, dir, files)]
  }

  /** The loop of FileFound signals; true when shutdown stopped it. */
  function FoundEach(env: Env, st: State, dir: Path, files: seq<string>): (r: (State, bool))
    ensures r.0 == st.(log := r.0.log, shutdownRequested := r.0.shutdownRequested)
    ensures !r.1 ==> r.0.shutdownRequested == st.shutdownRequested
  {
    if files == [] then (st, false)
    else
      var p := FoundEach(env, st, dir, files[..|files| - 1]);
      if p.1 then p
      else
        var s := Notify(env, p.0, FileFoundSignal(Child(dir, files[|files| - 1])));
        (s, s.shutdownRequested)
  }

  /** Whether the lookup loop goes on, returns from runCycle, or is ended by an exception. */
  datatype Exit = Continue | Return | Throw(error: Exception)

  /** From the FileSetFound signal to the end of the directory's lookup. */
  function Announce(cfg: Settings, env: Env, st: State, i: nat, dir: Path, base: Path, files: seq<string>): (r: (State, Exit))
    requires i < |st.baseTime|
    ensures |r.0.baseTime| == |st.baseTime| && !r.1.Throw?
  {
    var st1 := if |files| > 0 then Notify(env, st, FileSetFoundSignal(FileSetFoundEvent(base, FilesIn(base, files)))) else st;
    if st1.shutdownRequested then (st1, Return)
    else
      var p := if cfg.sendSingleFileEvent then FoundEach(env, st1, dir, files) else (st1, false);
      if p.1 || p.0.shutdownRequested then (p.0, Return)
      else
        var st3 := p.0.(baseTime := NextBaseTime(cfg, env, p.0, i, dir, files));
        (Notify(env, st3, DirectoryLookupEnd(dir)), Continue)
  }

  /** The names of directory i that pass the filter; none when it cannot be listed. */
  function Listed(cfg: Settings, env: Env, st: State, i: nat): seq<string>
    requires i < |cfg.dirs| && i < |st.baseTime|
  {
    var dir := cfg.dirs[i];
    if Listable(st.nodes, dir) then
      Selected(env.filters, cfg.filter, st.nodes, st.baseTime[i], dir, env.listing(st.nodes, dir))
    else []
  }

  /** The body of the lookup loop for directory i, after its DirectoryLookupStart signal. */
  function LookupBody(cfg: Settings, env: Env, st: State, i: nat): (r: (State, Exit))
    requires i < |cfg.dirs| && i < |st.baseTime|
    ensures |r.0.baseTime| == |st.baseTime|
  {
    var dir := cfg.dirs[i];
    var names := Listed(cfg, env, st, i);
    if !cfg.autoMove then Announce(cfg, env, st, i, dir, dir, names)
    else
      var am := AutoMoveDirOf(st.autoMoveDirs, dir);
      AutoMoved(cfg, env, st.(autoMoveDirs := st.autoMoveDirs[dir := am]), i, dir, am, names)
  }

  /** The auto-move part of a lookup: the marker sweep of am, the moves into it, then the announcement of the moved files. */
  function AutoMoved(cfg: Settings, env: Env, st: State, i: nat, dir: Path, am: Path, names: seq<string>): (r: (State, Exit))
    requires i < |st.baseTime|
    ensures |r.0.baseTime| == |st.baseTime|
  {
    var p := SweepAll(cfg, env, st, am, Markers(env, st.nodes, am));
    if p.thrown.Some? then (p.st, Throw(p.thrown.value))
    else
      var q := TryAll(cfg, env, p.st, dir, am, names);
      if q.thrown.Some? then (q.st, Throw(q.thrown.value))
      else Announce(cfg, env, q.st, i, dir, am, q.moved)
  }

  /** One pass of the lookup loop, for directory i. */
  function Lookup(cfg: Settings, env: Env, st: State, i: nat): (r: (State, Exit))
    requires i < |cfg.dirs| && i < |st.baseTime|
    ensures |r.0.baseTime| == |st.baseTime|
  {
    var st1 := Notify(env, st, DirectoryLookupStart(cfg.dirs[i]));
    if st1.shutdownRequested then (st1, Return) else LookupBody(cfg, env, st1, i)
  }

  /** The lookup loop over the first k directories, left as soon as one does not continue. */
  function LookupAll(cfg: Settings, env: Env, st: State, k: nat): (r: (State, Exit))
    requires k <= |cfg.dirs| && |st.baseTime| == |cfg.dirs|
    ensures |r.0.baseTime| == |cfg.dirs|
  {
    if k == 0 then (st, Continue)
    else
      var p := LookupAll(cfg, env, st, k - 1);
      if !p.1.Continue? then p else Lookup(cfg, env, p.0, k - 1)
  }

  /** runCycle: the state it leaves and the exception it ends with, if any. */
  function Cycle(cfg: Settings, env: Env, st: State): (r: (State, Option<Exception>))
    requires |st.baseTime| == |cfg.dirs|
    ensures |r.0.baseTime| == |cfg.dirs|
  {
    if st.shutdownRequested then (st, None)
    else
      var st1 := Notify(env, st, CycleStart);
      if st1.shutdownRequested then (st1, None)
      else
        var p := LookupAll(cfg, env, st1, |cfg.dirs|);
        match p.1
        case Throw(e) => (p.0, Some(e))
        case Return => (p.0, None)
        case Continue => (if p.0.shutdownRequested then p.0 else Notify(env, p.0, CycleEnd(p.0.baseTime)), None)
  }

  /** Once one step of the auto-move loop throws, the rest of the names are not looked at. */
  lemma {:induction false} TryAllSticks(cfg: Settings, env: Env, st: State, dir: Path, am: Path, names: seq<string>, k: nat)
    requires k <= |names| && TryAll(cfg, env, st, dir, am, names[..k]).thrown.Some?
    ensures TryAll(cfg, env, st, dir, am, names) == TryAll(cfg, env, st, dir, am, names[..k])
  {
    if k < |names| {
      var init := names[..|names| - 1];
      assert init[..k] == names[..k];
      TryAllSticks(cfg, env, st, dir, am, init, k);
    } else {
      assert names[..k] == names;
    }
  }

  /** Once one marker throws, the later markers are left alone. */
  lemma {:induction false} SweepAllSticks(cfg: Settings, env: Env, st: State, am: Path, ms: seq<string>, k: nat)
    requires forall i :: 0 <= i < |ms| ==> IsMarkerName(ms[i])
    requires k <= |ms| && SweepAll(cfg, env, st, am, ms[..k]).thrown.Some?
    ensures SweepAll(cfg, env, st, am, ms) == SweepAll(cfg, env, st, am, ms[..k])
  {
    if k < |ms| {
      var init := ms[..|ms| - 1];
      assert init[..k] == ms[..k];
      SweepAllSticks(cfg, env, st, am, init, k);
    } else {
      assert ms[..k] == ms;
    }
  }

  /** Once a lookup returns or throws, the later directories are not looked up. */
  /** Once the first k lookups continue, the next one runs from the state they leave. */
  lemma LookupAllNext(cfg: Settings, env: Env, st: State, k: nat, s: State)
    requires k < |cfg.dirs| && |st.baseTime| == |cfg.dirs|
    requires LookupAll(cfg, env, st, k) == (s, Continue)
    ensures LookupAll(cfg, env, st, k + 1) == Lookup(cfg, env, s, k)
  {
  }

  lemma {:induction false} LookupAllSticks(cfg: Settings, env: Env, st: State, k: nat, n: nat)
    requires k <= n <= |cfg.dirs| && |st.baseTime| == |cfg.dirs|
    requires !LookupAll(cfg, env, st, k).1.Continue?
    ensures LookupAll(cfg, env, st, n) == LookupAll(cfg, env, st, k)
    decreases n
  {
    if k < n {
      LookupAllSticks(cfg, env, st, k, n - 1);
    }
  }

  /**
   * The prologue of run for one polled directory: its auto-move directory
   * is looked up (and recorded), and created when it does not exist; one
   * that cannot be created ends run with a RuntimeException.
   */
  function PrepareOne(st: State, dir: Path): (r: (State, Option<Exception>))
    ensures r.0 == st.(nodes := r.0.nodes, autoMoveDirs := r.0.autoMoveDirs)
  {
    var am := AutoMoveDirOf(st.autoMoveDirs, dir);
    var st1 := st.(autoMoveDirs := st.autoMoveDirs[dir := am]);
    if am in st1.nodes then (st1, None)
    else if CanMkDirs(st1.nodes, am) then (st1.(nodes := AfterMkDirs(st1.nodes, am)), None)
    else (st1, Some(CreateFailure(am)))
  }

  /** The prologue over the first k directories, ended by the first failure. */
  function Prepare(cfg: Settings, st: State, k: nat): (r: (State, Option<Exception>))
    requires k <= |cfg.dirs|
  {
    if k == 0 then (st, None)
    else
      var p := Prepare(cfg, st, k - 1);
      if p.1.Some? then p else PrepareOne(p.0, cfg.dirs[k - 1])
  }

  lemma {:induction false} PrepareSticks(cfg: Settings, st: State, k: nat, n: nat)
    requires k <= n <= |cfg.dirs| && Prepare(cfg, st, k).1.Some?
    ensures Prepare(cfg, st, n) == Prepare(cfg, st, k)
    decreases n
  {
    if k < n {
      PrepareSticks(cfg, st, k, n - 1);
    }
  }

  /**
   * The loop of run over the cycles it is given: one cycle per input until
   * shutdown is requested or a cycle throws, which ends the thread.
   */
  function Cycles(cfg: Settings, envs: seq<Env>, st: State): (r: (State, Option<Exception>))
    requires |st.baseTime| == |cfg.dirs|
    ensures |r.0.baseTime| == |cfg.dirs|
  {
    if envs == [] || st.shutdownRequested then (st, None)
    else
      var c := Cycle(cfg, envs[0], st);
      if c.1.Some? then c else Cycles(cfg, envs[1..], c.0)
  }

  /** run begins by clearing the shutdown flag, then prepares the auto-move directories when auto-move is on. */
  function Started(cfg: Settings, st: State): (r: (State, Option<Exception>))
    ensures r.0.baseTime == st.baseTime
  {
    var st0 := st.(shutdownRequested := false);
    if !cfg.autoMove then (st0, None)
    else PrepareChangesOnly(cfg, st0, |cfg.dirs|); Prepare(cfg, st0, |cfg.dirs|)
  }

  /** The prologue changes the disk and the auto-move map only. */
  lemma {:induction false} PrepareChangesOnly(cfg: Settings, st: State, k: nat)
    requires k <= |cfg.dirs|
    ensures var r := Prepare(cfg, st, k).0;
      r == st.(nodes := r.nodes, autoMoveDirs := r.autoMoveDirs)
  {
    if k > 0 {
      PrepareChangesOnly(cfg, st, k - 1);
    }
  }

  /** run starts with shutdown cleared and only the disk and the auto-move map changed. */
  lemma StartedChangesOnly(cfg: Settings, st: State)
    ensures var r := Started(cfg, st).0;
      r == st.(nodes := r.nodes, autoMoveDirs := r.autoMoveDirs, shutdownRequested := false)
  {
    PrepareChangesOnly(cfg, st.(shutdownRequested := false), |cfg.dirs|);
  }

  /** Once shutdown stops the FileFound loop, the later files are not signalled. */
  lemma {:induction false} FoundEachSticks(env: Env, st: State, dir: Path, files: seq<string>, k: nat)
    requires k <= |files| && FoundEach(env, st, dir, files[..k]).1
    ensures FoundEach(env, st, dir, files) == FoundEach(env, st, dir, files[..k])
  {
    if k < |files| {
      var init := files[..|files| - 1];
      assert init[..k] == files[..k];
      FoundEachSticks(env, st, dir, init, k);
    } else {
      assert files[..k] == files;
    }
  }

  /** One pass of the stability loop over the size map: the entry of f taken out, and put back unless f was stable or pending. */
  function NextSizes(cfg: Settings, env: Env, ns: Nodes, m: map<Path, int>, f: Path): map<Path, int>
  {
    if f in m && m[f] == Length(ns, f) then m - {f}
    else if Pending(cfg, env, ns, f) then m - {f}
    else (m - {f})[f := Length(ns, f)]
  }

  /** Checking one more file is one pass of the stability loop. */
  lemma CheckedSizesStep(cfg: Settings, env: Env, ns: Nodes, sizes: map<Path, int>, done: set<Path>, f: Path)
    requires f !in done
    ensures CheckedSizes(cfg, env, ns, sizes, done + {f}) == NextSizes(cfg, env, ns, CheckedSizes(cfg, env, ns, sizes, done), f)
    ensures AllStable(sizes, ns, done + {f}) == (AllStable(sizes, ns, done) && Stable(sizes, ns, f))
    ensures Stable(CheckedSizes(cfg, env, ns, sizes, done), ns, f) == Stable(sizes, ns, f)
  {
    var before := CheckedSizes(cfg, env, ns, sizes, done);
    assert (f in before <==> f in sizes) && (f in sizes ==> before[f] == sizes[f]);
  }
}

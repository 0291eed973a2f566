// The DirectoryPoller thread object: its configuration methods, and the
// polling cycle performed step by step on the poller's fields and the disk,
// each step proved to leave exactly the state the functions of PollerCycle
// describe.

module Poller {
  import opened Text
  import opened Files
  import opened Outcomes
  import opened Events
  import opened PostProcessMarkers
  import opened PollerFilters
  import opened PollerCycle
  import opened PollerDirectories
  import opened Comparators

  class DirectoryPoller {
    /** The disk the poller works on. */
    const fs: FileSystem

    var dirs: seq<Path>
    var baseTime: seq<int>
    var filter: Filter
    /** The directory filter built at construction, which setTimeBased wraps or restores. */
    var originalFilter: Filter
    var timeBasedOnLastLookup: bool
    var autoMove: bool
    var autoMoveDirs: map<Path, Path>
    var pollInterval: int
    var postProcessDelayMinutes: int
    var startBySleeping: bool
    var sendSingleFileEvent: bool
    var filesSortComparator: Option<Comparator>
    var bypassLockedFiles: bool
    var fileSizeMap: map<Path, int>
    var shutdownRequested: bool
    /** The identities of the poll managers added, each listening through a DefaultListener. */
    var pollManagers: seq<nat>
    /** The signals sent to the listeners so far. */
    var log: seq<Signal>
    /** Thread.isAlive() and the sleeping flag, as the thread's lifecycle sets them. */
    var alive: bool
    var sleeping: bool

    ghost predicate Valid()
      reads this
    {
      |baseTime| == |dirs| && originalFilter.DirectoryFilter?
    }

    /** The fields a cycle reads and never changes. */
    function Config(): Settings
      reads this, fs
    {
      Settings(dirs, filter, autoMove, sendSingleFileEvent, timeBasedOnLastLookup,
        bypassLockedFiles, postProcessDelayMinutes, fs.pinned)
    }

    /** The disk and the fields a cycle changes. */
    function Snapshot(): State
      reads this, fs
    {
      State(fs.nodes, fileSizeMap, baseTime, autoMoveDirs, log, shutdownRequested)
    }

    /** The fields no cycle touches. */
    function Rest(): (Filter, int, bool, Option<Comparator>, seq<nat>, bool, bool)
      reads this
    {
      (originalFilter, pollInterval, startBySleeping, filesSortComparator, pollManagers, alive, sleeping)
    }

    /**
     * The fields as the main constructor leaves them: the directories given,
     * each base time 0, the user's filter wrapped in a DirectoryFilter with the
     * system subdirectory names (and in a TimeFilter when time-based), and
     * every other field at its initial value.
     */
    ghost predicate Initial(fs: FileSystem, ds: seq<Path>, userFilter: Option<NameFilter>, systemNames: seq<string>, timeBased: bool)
      reads this
    {
      Valid() && this.fs == fs
      && dirs == ds && baseTime == seq(|ds|, _ => 0)
      && originalFilter == DirectoryFilter(systemNames, userFilter)
      && filter == (if timeBased then TimeFilter(originalFilter) else originalFilter)
      && timeBasedOnLastLookup && !autoMove && autoMoveDirs == map[]
      && pollInterval == 10000 && postProcessDelayMinutes == 0
      && !startBySleeping && !sendSingleFileEvent && filesSortComparator.None? && !bypassLockedFiles
      && fileSizeMap == map[] && !shutdownRequested && pollManagers == [] && log == []
      && !alive && !sleeping
    }

    /**
     * The main constructor once its directories have passed the check of
     * setDirectories; NewDirectoryPoller runs that check first.
     */
    constructor (fs: FileSystem, ds: seq<Path>, userFilter: Option<NameFilter>, systemNames: seq<string>, timeBased: bool)
      requires forall i :: 0 <= i < |ds| ==> IsDirectory(fs.nodes, ds[i])
      ensures Initial(fs, ds, userFilter, systemNames, timeBased)
    {
      this.fs := fs;
      dirs := ds;
      baseTime := seq(|ds|, _ => 0);
      originalFilter := DirectoryFilter(systemNames, userFilter);
      filter := if timeBased then TimeFilter(DirectoryFilter(systemNames, userFilter)) else DirectoryFilter(systemNames, userFilter);
      timeBasedOnLastLookup := true;
      autoMove := false;
      autoMoveDirs := map[];
      pollInterval := 10000;
      postProcessDelayMinutes := 0;
      startBySleeping := false;
      sendSingleFileEvent := false;
      filesSortComparator := None;
      bypassLockedFiles := false;
      fileSizeMap := map[];
      shutdownRequested := false;
      pollManagers := [];
      log := [];
      alive := false;
      sleeping := false;
    }

    /** Thread.start and the sleep of run, which the poller's thread performs. */
    method SetThreadState(alive: bool, sleeping: bool)
      modifies this
      ensures this.alive == alive && this.sleeping == sleeping
      ensures Config() == old(Config()) && Snapshot() == old(Snapshot())
      ensures originalFilter == old(originalFilter) && pollInterval == old(pollInterval)
      ensures startBySleeping == old(startBySleeping) && filesSortComparator == old(filesSortComparator)
      ensures pollManagers == old(pollManagers)
    {
      this.alive := alive;
      this.sleeping := sleeping;
    }

    /**
     * setDirectories: refused while the thread runs and is not sleeping; a
     * null array changes nothing; otherwise the directories are checked in
     * order, and on success every base time starts again at 0.
     */
    method SetDirectories(ds: Option<seq<Option<Path>>>) returns (r: Result<()>)
      requires Valid()
      modifies this
      ensures Valid()
      ensures alive && !sleeping ==> r == Err(IllegalStateException) && dirs == old(dirs) && baseTime == old(baseTime)
      ensures !(alive && !sleeping) && ds.None? ==> r == Ok(()) && dirs == old(dirs) && baseTime == old(baseTime)
      ensures !(alive && !sleeping) && ds.Some? ==>
        match CheckedDirectories(fs.nodes, ds.value)
        case Err(e) => r == Err(e) && dirs == old(dirs) && baseTime == old(baseTime)
        case Ok(checked) => r == Ok(()) && dirs == checked && baseTime == seq(|checked|, _ => 0)
      ensures Rest() == old(Rest()) && Snapshot().(baseTime := old(baseTime)) == old(Snapshot())
      ensures Config().(dirs := old(dirs)) == old(Config())
    {
      if alive && !sleeping {
        return Err(IllegalStateException);
      }
      if ds.None? {
        return Ok(());
      }
      var checked := ValidateDirectories(fs.nodes, ds.value);
      match checked {
        case Err(e) =>
          r := Err(e);
        case Ok(newDirs) =>
          dirs := newDirs;
          baseTime := seq(|newDirs|, _ => 0);
          r := Ok(());
      }
    }

    /** addDirectory: a directory already polled is not added again; otherwise the list grows by one through setDirectories. */
    method AddDirectory(dir: Path) returns (r: Result<()>)
      requires Valid()
      modifies this
      ensures Valid()
      ensures dir in old(dirs) ==> r == Ok(()) && dirs == old(dirs) && baseTime == old(baseTime)
      ensures dir !in old(dirs) && alive && !sleeping ==> r == Err(IllegalStateException) && dirs == old(dirs) && baseTime == old(baseTime)
      ensures dir !in old(dirs) && !(alive && !sleeping) ==>
        if forall i :: 0 <= i < |old(dirs) + [dir]| ==> IsDirectory(fs.nodes, (old(dirs) + [dir])[i])
        then r == Ok(()) && dirs == old(dirs) + [dir] && baseTime == seq(|dirs|, _ => 0)
        else r == Err(IllegalArgumentException) && dirs == old(dirs) && baseTime == old(baseTime)
      ensures Rest() == old(Rest()) && Snapshot().(baseTime := old(baseTime)) == old(Snapshot())
      ensures Config().(dirs := old(dirs)) == old(Config())
    {
      var i := 0;
      while i < |dirs|
        invariant 0 <= i <= |dirs|
        invariant dir !in dirs[..i]
      {
        if dirs[i] == dir {
          return Ok(());
        }
        assert dirs[..i + 1] == dirs[..i] + [dirs[i]];
        i := i + 1;
      }
      assert dirs[..i] == dirs;
      CheckedWrapped(fs.nodes, dirs + [dir]);
      r := SetDirectories(Some(Wrapped(dirs + [dir])));
    }

    /**
     * removeDirectory: the copy into an array one shorter, then
     * setDirectories. The IllegalArgumentException for a directory that is
     * not polled is never reached: the copy overruns the array first.
     */
    method RemoveDirectory(dir: Path) returns (r: Result<()>)
      requires Valid()
      modifies this
      ensures Valid()
      ensures WithoutDirectory(old(dirs), dir).Err? ==> r == Err(WithoutDirectory(old(dirs), dir).error) && dirs == old(dirs) && baseTime == old(baseTime)
      ensures Occurrences(old(dirs), dir) == 1 && !(alive && !sleeping) ==>
        var others := Others(old(dirs), dir);
        if forall i :: 0 <= i < |others| ==> IsDirectory(fs.nodes, others[i])
        then r == Ok(()) && dirs == others && baseTime == seq(|dirs|, _ => 0)
        else r == Err(IllegalArgumentException) && dirs == old(dirs) && baseTime == old(baseTime)
      ensures Occurrences(old(dirs), dir) >= 1 && alive && !sleeping ==> r == Err(IllegalStateException) && dirs == old(dirs) && baseTime == old(baseTime)
      ensures Occurrences(old(dirs), dir) >= 2 && !(alive && !sleeping) ==>
        var others := Others(old(dirs), dir);
        dirs == old(dirs) && baseTime == old(baseTime)
        && r == Err(if forall i :: 0 <= i < |others| ==> IsDirectory(fs.nodes, others[i]) then NullPointerException else IllegalArgumentException)
      ensures Rest() == old(Rest()) && Snapshot().(baseTime := old(baseTime)) == old(Snapshot())
      ensures Config().(dirs := old(dirs)) == old(Config())
    {
      var copied := CopyWithout(dirs, dir);
      if copied.Err? {
        return Err(copied.error);
      }
      ghost var before := dirs;
      if Occurrences(dirs, dir) == 1 {
        RemoveSingle(dirs, dir);
        CheckedWrapped(fs.nodes, Others(dirs, dir));
      } else {
        RemoveDuplicateLeavesNull(fs.nodes, dirs, dir);
      }
      r := SetDirectories(Some(copied.value));
    }

    /** checkIfManaged: the loop over the polled directories. */
    method CheckIfManaged(d: Path) returns (r: Result<()>)
      ensures r == (if d in dirs then Ok(()) else Err(IllegalArgumentException))
    {
      var i := 0;
      while i < |dirs|
        invariant 0 <= i <= |dirs|
        invariant d !in dirs[..i]
      {
        if dirs[i] == d {
          return Ok(());
        }
        assert dirs[..i + 1] == dirs[..i] + [dirs[i]];
        i := i + 1;
      }
      assert dirs[..i] == dirs;
      r := Err(IllegalArgumentException);
    }

    /** setAutoMoveDirecetory: only for a polled directory. The name keeps the misspelling of the private Java method it mirrors. */
    method SetAutoMoveDirecetory(d: Path, am: Path) returns (r: Result<()>)
      modifies this`autoMoveDirs
      ensures d in dirs ==> r == Ok(()) && autoMoveDirs == old(autoMoveDirs)[d := am]
      ensures d !in dirs ==> r == Err(IllegalArgumentException) && autoMoveDirs == old(autoMoveDirs)
    {
      r := CheckIfManaged(d);
      if r.Ok? {
        autoMoveDirs := autoMoveDirs[d := am];
      }
    }

    /** setAutoMoveDirectory: refused once the thread has started. */
    method SetAutoMoveDirectory(d: Path, am: Path) returns (r: Result<()>)
      modifies this`autoMoveDirs
      ensures alive ==> r == Err(IllegalStateException) && autoMoveDirs == old(autoMoveDirs)
      ensures !alive && d in dirs ==> r == Ok(()) && autoMoveDirs == old(autoMoveDirs)[d := am]
      ensures !alive && d !in dirs ==> r == Err(IllegalArgumentException) && autoMoveDirs == old(autoMoveDirs)
    {
      if alive {
        return Err(IllegalStateException);
      }
      r := SetAutoMoveDirecetory(d, am);
    }

    /**
     * getAutoMoveDirectory: the configured directory, else "received"
     * inside the polled one, which is then recorded (and refused for a
     * directory that is not polled).
     */
    method GetAutoMoveDirectory(d: Path) returns (r: Result<Path>)
      modifies this`autoMoveDirs
      ensures d in old(autoMoveDirs) ==> r == Ok(old(autoMoveDirs)[d]) && autoMoveDirs == old(autoMoveDirs)
      ensures d !in old(autoMoveDirs) && d in dirs ==>
        r == Ok(Child(d, "received")) && autoMoveDirs == old(autoMoveDirs)[d := Child(d, "received")]
      ensures d !in old(autoMoveDirs) && d !in dirs ==> r == Err(IllegalArgumentException) && autoMoveDirs == old(autoMoveDirs)
    {
      if d in autoMoveDirs {
        return Ok(autoMoveDirs[d]);
      }
      var f := Child(d, "received");
      var recorded := SetAutoMoveDirecetory(d, f);
      if recorded.Err? {
        return Err(recorded.error);
      }
      r := Ok(f);
    }

    method SetAutoMove(v: bool)
      modifies this`autoMove
      ensures autoMove == v
    {
      autoMove := v;
    }

    /**
     * setTimeBased: wraps the directory filter in a TimeFilter, or puts the
     * directory filter back; a filter already in the asked mode stays, and
     * a null filter is replaced either way.
     */
    method SetTimeBased(v: bool)
      requires Valid()
      modifies this`filter
      ensures v && old(filter) != NoFilter && old(filter).TimeFilter? ==> filter == old(filter)
      ensures v && !(old(filter) != NoFilter && old(filter).TimeFilter?) ==> filter == TimeFilter(originalFilter)
      ensures !v && old(filter) != NoFilter && !old(filter).TimeFilter? ==> filter == old(filter)
      ensures !v && !(old(filter) != NoFilter && !old(filter).TimeFilter?) ==> filter == originalFilter
      ensures IsTimeBased(filter) == v
    {
      if v {
        if filter != NoFilter && filter.TimeFilter? {
          return;
        }
        filter := TimeFilter(originalFilter);
      } else {
        if filter != NoFilter && !filter.TimeFilter? {
          return;
        }
        filter := originalFilter;
      }
    }

    /** isPollingTimeBased: time-based, with the base time taken from the lookup time. */
    predicate IsPollingTimeBased()
      reads this
      ensures IsPollingTimeBased() ==> IsTimeBased(filter)
      ensures IsTimeBased(filter) ==> (IsPollingTimeBased() <==> timeBasedOnLastLookup)
    {
      IsTimeBased(filter) && timeBasedOnLastLookup
    }

    method SetPollingTimeBased(v: bool)
      modifies this`timeBasedOnLastLookup
      ensures timeBasedOnLastLookup == v
      ensures IsPollingTimeBased() == (IsTimeBased(filter) && v)
    {
      timeBasedOnLastLookup := v;
    }

    /** setBaseTime(dir, time): the base time of the first matching directory. */
    method SetBaseTime(d: Path, t: int) returns (r: Result<()>)
      requires Valid()
      modifies this`baseTime
      ensures Valid()
      ensures match IndexOfDirectory(dirs, d)
        case None => r == Err(IllegalArgumentException) && baseTime == old(baseTime)
        case Some(i) => r == Ok(()) && baseTime == old(baseTime)[i := t]
    {
      var i := FindDirectory(dirs, d);
      if i.None? {
        return Err(IllegalArgumentException);
      }
      baseTime := baseTime[i.value := t];
      r := Ok(());
    }

    /** setBaseTime(time): setBaseTime(dir, time) for every polled directory. */
    method SetAllBaseTimes(t: int)
      requires Valid()
      modifies this`baseTime
      ensures Valid()
      ensures baseTime == AllBaseTimesSet(old(baseTime), dirs, |dirs|, t)
    {
      var k := 0;
      while k < |dirs|
        invariant 0 <= k <= |dirs| && Valid()
        invariant baseTime == AllBaseTimesSet(old(baseTime), dirs, k, t)
      {
        var done := SetBaseTime(dirs[k], t);
        k := k + 1;
      }
    }

    /** getBaseTime: the base time of the first matching directory. */
    method GetBaseTime(d: Path) returns (r: Result<int>)
      requires Valid()
      ensures match IndexOfDirectory(dirs, d)
        case None => r == Err(IllegalArgumentException)
        case Some(i) => r == Ok(baseTime[i])
    {
      var i := FindDirectory(dirs, d);
      if i.None? {
        return Err(IllegalArgumentException);
      }
      r := Ok(baseTime[i.value]);
    }

    method SetSendSingleFileEvent(v: bool)
      modifies this`sendSingleFileEvent
      ensures sendSingleFileEvent == v
    {
      sendSingleFileEvent := v;
    }

    method SetPollInterval(v: int)
      modifies this`pollInterval
      ensures pollInterval == v
    {
      pollInterval := v;
    }

    method SetPostProcessDelayMinutes(v: int)
      modifies this`postProcessDelayMinutes
      ensures postProcessDelayMinutes == v
    {
      postProcessDelayMinutes := v;
    }

    method SetStartBySleeping(v: bool)
      modifies this`startBySleeping
      ensures startBySleeping == v
    {
      startBySleeping := v;
    }

    method SetFilesSortComparator(c: Option<Comparator>)
      modifies this`filesSortComparator
      ensures filesSortComparator == c
    {
      filesSortComparator := c;
    }

    method SetBypassLockedFiles(v: bool)
      modifies this`bypassLockedFiles
      ensures bypassLockedFiles == v
    {
      bypassLockedFiles := v;
    }

    /** setFilter: refused once the thread has started. */
    method SetFilter(f: Filter) returns (r: Result<()>)
      modifies this`filter
      ensures alive ==> r == Err(IllegalStateException) && filter == old(filter)
      ensures !alive ==> r == Ok(()) && filter == f
    {
      if alive {
        return Err(IllegalStateException);
      }
      filter := f;
      r := Ok(());
    }

    /** addPollManager: the manager joins the list and gets a DefaultListener. */
    method AddPollManager(pm: nat)
      modifies this`pollManagers
      ensures pollManagers == old(pollManagers) + [pm]
    {
      pollManagers := pollManagers + [pm];
    }

    /** shutdown: the flag the cycle and the run loop test (the interrupt of a sleeping thread is not modelled). */
    method Shutdown()
      modifies this`shutdownRequested
      ensures shutdownRequested
    {
      shutdownRequested := true;
    }

    predicate IsShuttingDown()
      reads this
      ensures IsShuttingDown() <==> shutdownRequested
    {
      shutdownRequested
    }

    /** notifyEvent, with shutdown requested from outside once the log reaches env.stopAt. */
    method NotifySignal(env: Env, s: Signal)
      modifies this`log, this`shutdownRequested
      ensures Snapshot() == Notify(env, old(Snapshot()), s)
      ensures Config() == old(Config()) && Rest() == old(Rest())
    {
      log := log + [s];
      shutdownRequested := shutdownRequested || (env.stopAt.Some? && |log| >= env.stopAt.value);
    }

    /** isScanDir: the loop over the polled directories, ended by the IOException of a missing one. */
    method IsScanDirectory(f: Path) returns (r: bool)
      ensures r == IsScanDir(dirs, fs.nodes, f)
    {
      if !IsDirectory(fs.nodes, f) {
        return false;
      }
      var i := 0;
      while i < |dirs|
        invariant 0 <= i <= |dirs|
        invariant SameAsScanDir(dirs, fs.nodes, f) == SameAsScanDir(dirs[i..], fs.nodes, f)
      {
        if dirs[i] == f {
          return true;
        }
        if dirs[i] !in fs.nodes {
          return false;
        }
        assert dirs[i..][1..] == dirs[i + 1..];
        i := i + 1;
      }
      r := false;
    }

    /** removePostProcessMarker: true when there is no marker or it is deleted. */
    method RemovePostProcessMarker(file: Path) returns (ok: bool)
      modifies fs
      ensures var marker := MarkerFile(file);
        ok == (marker !in old(fs.nodes) || CanDelete(old(fs.nodes), fs.pinned, marker))
        && fs.nodes == AfterDelete(old(fs.nodes), fs.pinned, marker)
    {
      var marker := MarkerFile(file);
      if marker !in fs.nodes {
        return true;
      }
      ok := fs.Delete(marker);
    }

    /** One pass of the stability loop: the recorded size of f is dropped, and recorded anew unless f is stable or pending. */
    method CheckFile(env: Env, f: Path) returns (stable: bool)
      modifies this`fileSizeMap
      ensures fileSizeMap == NextSizes(Config(), env, fs.nodes, old(fileSizeMap), f)
      ensures stable == Stable(old(fileSizeMap), fs.nodes, f)
      ensures Config() == old(Config()) && Rest() == old(Rest())
    {
      var last := if f in fileSizeMap then Some(fileSizeMap[f]) else None;
      fileSizeMap := fileSizeMap - {f};
      var len := Length(fs.nodes, f);
      stable := last == Some(len);
      if !stable && !Pending(Config(), env, fs.nodes, f) {
        fileSizeMap := fileSizeMap[f := len];
      }
    }

    /** The stability loop: every file is checked, the sizes are recorded, and the answer is whether all were stable. */
    method CheckStability(env: Env, files: set<Path>) returns (proceed: bool)
      modifies this`fileSizeMap
      ensures fileSizeMap == CheckedSizes(Config(), env, fs.nodes, old(fileSizeMap), files)
      ensures proceed == AllStable(old(fileSizeMap), fs.nodes, files)
      ensures Config() == old(Config()) && Rest() == old(Rest())
    {
      ghost var cfg := Config();
      ghost var sizes := fileSizeMap;
      proceed := true;
      var todo := files;
      while todo != {}
        invariant todo <= files
        invariant Config() == cfg && Rest() == old(Rest())
        invariant fileSizeMap == CheckedSizes(cfg, env, fs.nodes, sizes, files - todo)
        invariant proceed == AllStable(sizes, fs.nodes, files - todo)
        decreases |todo|
      {
        var f :| f in todo;
        ghost var done := files - todo;
        CheckedSizesStep(cfg, env, fs.nodes, sizes, done, f);
        var stable := CheckFile(env, f);
        proceed := proceed && stable;
        todo := todo - {f};
        assert files - todo == done + {f};
      }
      assert files - todo == files;
    }

    /** The marker removal after a move. */
    method ClearMarker(env: Env, orig: Path, dest: Path)
      modifies this`log, this`shutdownRequested, fs
      ensures Snapshot() == MarkerCleared(Config(), env, old(Snapshot()), orig, dest)
      ensures Config() == old(Config()) && Rest() == old(Rest())
    {
      var removed := RemovePostProcessMarker(orig);
      if !removed {
        NotifySignal(env, MarkerFailure(orig, dest));
      }
    }

    /** The FileMoved signal and the AppleDouble companion. */
    method AnnounceMove(env: Env, orig: Path, dest: Path)
      modifies this`log, this`shutdownRequested, fs
      ensures Snapshot() == Announced(Config(), env, old(Snapshot()), orig, dest)
      ensures Config() == old(Config()) && Rest() == old(Rest())
    {
      NotifySignal(env, FileMovedSignal(FileMovedEvent(orig, dest)));
      var apple := AppleDouble(orig);
      if apple in fs.nodes {
        var deleted := fs.Delete(apple);
      }
    }

    /** The rename of a stable candidate and what follows it. */
    method RelocateFile(env: Env, orig: Path, dest: Path) returns (moved: seq<string>)
      modifies this`log, this`shutdownRequested, fs
      ensures Pass(Snapshot(), moved, None) == Relocate(Config(), env, old(Snapshot()), orig, dest)
      ensures Config() == old(Config()) && Rest() == old(Rest())
    {
      var renamed := fs.Rename(orig, dest);
      if !renamed {
        NotifySignal(env, MoveFailure(orig, dest));
        return [];
      }
      ClearMarker(env, orig, dest);
      AnnounceMove(env, orig, dest);
      moved := [Name(dest)];
    }

    /** A candidate whose destination is free: skip, lock and stability checks, then the move. */
    method ExamineCandidate(env: Env, orig: Path, dest: Path) returns (moved: seq<string>, thrown: Option<Exception>)
      modifies this, fs
      ensures Pass(Snapshot(), moved, thrown) == Examine(old(Config()), env, old(Snapshot()), orig, dest)
      ensures Config() == old(Config()) && Rest() == old(Rest())
    {
      var scanDir := IsScanDirectory(orig);
      if Skip(fs.nodes, orig) || scanDir || Pending(Config(), env, fs.nodes, orig) {
        return [], None;
      }
      var lock := Acquired;
      if IsFile(fs.nodes, orig) && bypassLockedFiles {
        lock := env.lock(orig);
      }
      match lock {
        case Locked =>
          return [], None;
        case OpenFailed =>
          NotifySignal(env, LockUnverified(orig, dest));
          return [], None;
        case LockFailed =>
          NotifySignal(env, LockAttemptFailed(orig, dest));
          return [], None;
        case Acquired =>
      }
      if IsDirectory(fs.nodes, orig) && WalkFails(Config(), env, fs.nodes, orig) {
        return [], Some(NullPointerException);
      }
      var files := FilesToCheck(Config(), env, fs.nodes, orig);
      var proceed := CheckStability(env, files);
      if !proceed {
        return [], None;
      }
      moved := RelocateFile(env, orig, dest);
      thrown := None;
    }

    /** One iteration of the auto-move loop. */
    method TryMoveFile(env: Env, dir: Path, am: Path, name: string) returns (moved: seq<string>, thrown: Option<Exception>)
      modifies this, fs
      ensures Pass(Snapshot(), moved, thrown) == TryMove(old(Config()), env, old(Snapshot()), dir, am, name)
      ensures Config() == old(Config()) && Rest() == old(Rest())
    {
      var orig := Child(dir, name);
      var dest := Child(am, name);
      if dest in fs.nodes {
        var deleted := fs.Delete(dest);
        if !deleted {
          NotifySignal(env, DeleteFailure(orig, dest));
          return [], None;
        }
      }
      var made := fs.MkDirs(am);
      moved, thrown := ExamineCandidate(env, orig, dest);
    }

    /** The auto-move loop over the listed names. */
    method TryAllCandidates(env: Env, dir: Path, am: Path, names: seq<string>) returns (moved: seq<string>, thrown: Option<Exception>)
      modifies this, fs
      ensures Pass(Snapshot(), moved, thrown) == TryAll(old(Config()), env, old(Snapshot()), dir, am, names)
      ensures Config() == old(Config()) && Rest() == old(Rest())
    {
      ghost var cfg := Config();
      ghost var st := Snapshot();
      moved := [];
      var k := 0;
      while k < |names|
        invariant 0 <= k <= |names|
        invariant Config() == cfg && Rest() == old(Rest())
        invariant TryAll(cfg, env, st, dir, am, names[..k]) == Pass(Snapshot(), moved, None)
      {
        assert names[..k + 1][..k] == names[..k];
        var m, t := TryMoveFile(env, dir, am, names[k]);
        moved := moved + m;
        if t.Some? {
          TryAllSticks(cfg, env, st, dir, am, names, k + 1);
          return moved, t;
        }
        k := k + 1;
      }
      assert names[..k] == names;
      thrown := None;
    }

    /** One marker file of the quarantine directory. */
    method SweepMarker(env: Env, am: Path, m: string) returns (thrown: Option<Exception>)
      requires IsMarkerName(m)
      modifies this, fs
      ensures Pass(Snapshot(), [], thrown) == SweepOne(old(Config()), env, old(Snapshot()), am, m)
      ensures Config() == old(Config()) && Rest() == old(Rest())
    {
      var marker := Child(am, m);
      var orig := Child(am, OriginalName(m));
      if orig !in fs.nodes {
        var deleted := fs.Delete(marker);
        return None;
      }
      if !PollerExpired(Config(), env, fs.nodes, marker) {
        return None;
      }
      var post := ReadPostProcessFile(fs, marker);
      if "action" !in post {
        return Some(NullPointerException);
      }
      var action := post["action"];
      if action == "delete" {
        var deleted := fs.Delete(orig);
      } else if action == "move" {
        if "dest" !in post {
          return Some(NullPointerException);
        }
        var renamed := fs.Rename(orig, ParsePath(post["dest"]));
      }
      var deleted := fs.Delete(marker);
      thrown := None;
    }

    /** The marker loop of an auto-move directory. */
    method SweepMarkers(env: Env, am: Path, ms: seq<string>) returns (thrown: Option<Exception>)
      requires forall i :: 0 <= i < |ms| ==> IsMarkerName(ms[i])
      modifies this, fs
      ensures Pass(Snapshot(), [], thrown) == SweepAll(old(Config()), env, old(Snapshot()), am, ms)
      ensures Config() == old(Config()) && Rest() == old(Rest())
    {
      ghost var cfg := Config();
      ghost var st := Snapshot();
      var k := 0;
      while k < |ms|
        invariant 0 <= k <= |ms|
        invariant Config() == cfg && Rest() == old(Rest())
        invariant SweepAll(cfg, env, st, am, ms[..k]) == Pass(Snapshot(), [], None)
      {
        assert ms[..k + 1][..k] == ms[..k];
        var t := SweepMarker(env, am, ms[k]);
        if t.Some? {
          SweepAllSticks(cfg, env, st, am, ms, k + 1);
          return t;
        }
        k := k + 1;
      }
      assert ms[..k] == ms;
      thrown := None;
    }

    /** The FileFound loop; true when shutdown stopped it. */
    method SendFileFound(env: Env, dir: Path, files: seq<string>) returns (stopped: bool)
      modifies this
      ensures (Snapshot(), stopped) == FoundEach(env, old(Snapshot()), dir, files)
      ensures Config() == old(Config()) && Rest() == old(Rest())
    {
      ghost var st := Snapshot();
      var k := 0;
      stopped := false;
      while k < |files|
        invariant 0 <= k <= |files|
        invariant Config() == old(Config()) && Rest() == old(Rest())
        invariant FoundEach(env, st, dir, files[..k]) == (Snapshot(), false)
      {
        assert files[..k + 1][..k] == files[..k];
        NotifySignal(env, FileFoundSignal(Child(dir, files[k])));
        if shutdownRequested {
          FoundEachSticks(env, st, dir, files, k + 1);
          return true;
        }
        k := k + 1;
      }
      assert files[..k] == files;
    }

    /** The newest modification time among the files, raising the base time of directory i. */
    method RaiseBaseTime(i: nat, dir: Path, files: seq<string>)
      requires i < |baseTime|
      modifies this`baseTime
      ensures baseTime == old(baseTime)[i := MaxModified(old(baseTime)[i], fs.nodes, dir, files)]
    {
      var k := 0;
      while k < |files|
        invariant 0 <= k <= |files| && |baseTime| == |old(baseTime)|
        invariant baseTime == old(baseTime)[i := MaxModified(old(baseTime)[i], fs.nodes, dir, files[..k])]
      {
        assert files[..k + 1][..k] == files[..k];
        var lm := LastModified(fs.nodes, Child(dir, files[k]));
        if lm > baseTime[i] {
          baseTime := baseTime[i := lm];
        }
        k := k + 1;
      }
      assert files[..k] == files;
    }

    /** From the FileSetFound signal to the end of the lookup of directory i. */
    method AnnounceFiles(env: Env, i: nat, dir: Path, base: Path, files: seq<string>) returns (exit: Exit)
      requires i < |baseTime|
      modifies this
      ensures (Snapshot(), exit) == Announce(old(Config()), env, old(Snapshot()), i, dir, base, files)
      ensures Config() == old(Config()) && Rest() == old(Rest())
    {
      if |files| > 0 {
        var e := NewFileSetFoundEvent(base, files);
        NotifySignal(env, FileSetFoundSignal(e));
      }
      if shutdownRequested {
        return Return;
      }
      var stopped := false;
      if sendSingleFileEvent {
        stopped := SendFileFound(env, dir, files);
      }
      if stopped || shutdownRequested {
        return Return;
      }
      if IsTimeBased(filter) {
        if timeBasedOnLastLookup {
          baseTime := baseTime[i := env.now];
        } else {
          RaiseBaseTime(i, dir, files);
        }
      }
      NotifySignal(env, DirectoryLookupEnd(dir));
      exit := Continue;
    }

    /** One pass of the lookup loop over the polled directories. */
    method LookupDirectory(env: Env, i: nat) returns (exit: Exit)
      requires Valid() && i < |dirs|
      modifies this, fs
      ensures Valid()
      ensures (Snapshot(), exit) == Lookup(old(Config()), env, old(Snapshot()), i)
      ensures Config() == old(Config()) && Rest() == old(Rest())
    {
      var dir := dirs[i];
      NotifySignal(env, DirectoryLookupStart(dir));
      if shutdownRequested {
        return Return;
      }
      var names := Listed(Config(), env, Snapshot(), i);
      if !autoMove {
        exit := AnnounceFiles(env, i, dir, dir, names);
        return;
      }
      ghost var before := autoMoveDirs;
      var found := GetAutoMoveDirectory(dir);
      var am := found.value;
      assert am == AutoMoveDirOf(before, dir) && autoMoveDirs == before[dir := am];
      exit := AutoMoveFiles(env, i, dir, am, names);
    }

    /** The marker sweep of am, the moves into it, and the announcement of what was moved. */
    method AutoMoveFiles(env: Env, i: nat, dir: Path, am: Path, names: seq<string>) returns (exit: Exit)
      requires i < |baseTime|
      modifies this, fs
      ensures (Snapshot(), exit) == AutoMoved(old(Config()), env, old(Snapshot()), i, dir, am, names)
      ensures Config() == old(Config()) && Rest() == old(Rest()) && |baseTime| == old(|baseTime|)
    {
      var ms := Markers(env, fs.nodes, am);
      var swept := SweepMarkers(env, am, ms);
      if swept.Some? {
        return Throw(swept.value);
      }
      var moved, thrown := TryAllCandidates(env, dir, am, names);
      if thrown.Some? {
        return Throw(thrown.value);
      }
      exit := AnnounceFiles(env, i, dir, am, moved);
    }

    /** The lookup of directory i, after the first i lookups continued. */
    method LookupNext(env: Env, ghost cfg: Settings, ghost st: State, i: nat) returns (exit: Exit)
      requires Valid() && Config() == cfg && i < |dirs| && |st.baseTime| == |dirs|
      requires LookupAll(cfg, env, st, i) == (Snapshot(), Continue)
      modifies this, fs
      ensures Valid() && Config() == cfg && Rest() == old(Rest())
      ensures (Snapshot(), exit) == LookupAll(cfg, env, st, i + 1)
    {
      LookupAllNext(cfg, env, st, i, Snapshot());
      exit := LookupDirectory(env, i);
    }

    /** The lookup loop of runCycle over every polled directory, left as soon as one lookup does not continue. */
    method LookupDirectories(env: Env) returns (exit: Exit)
      requires Valid()
      modifies this, fs
      ensures Valid() && Config() == old(Config()) && Rest() == old(Rest())
      ensures (Snapshot(), exit) == LookupAll(old(Config()), env, old(Snapshot()), |old(dirs)|)
    {
      ghost var cfg := Config();
      ghost var st := Snapshot();
      var i := 0;
      exit := Continue;
      while i < |dirs| && exit.Continue?
        invariant 0 <= i <= |dirs| && Valid()
        invariant Config() == cfg && Rest() == old(Rest())
        invariant LookupAll(cfg, env, st, i) == (Snapshot(), exit)
      {
        exit := LookupNext(env, cfg, st, i);
        i := i + 1;
      }
      if !exit.Continue? {
        LookupAllSticks(cfg, env, st, i, |dirs|);
      }
    }

    /** runCycle. */
    method RunCycle(env: Env) returns (thrown: Option<Exception>)
      requires Valid()
      modifies this, fs
      ensures Valid()
      ensures (Snapshot(), thrown) == Cycle(old(Config()), env, old(Snapshot()))
      ensures Config() == old(Config()) && Rest() == old(Rest())
    {
      if shutdownRequested {
        return None;
      }
      NotifySignal(env, CycleStart);
      if shutdownRequested {
        return None;
      }
      var exit := LookupDirectories(env);
      if exit.Throw? {
        return Some(exit.error);
      }
      if exit.Return? {
        return None;
      }
      if !shutdownRequested {
        NotifySignal(env, CycleEnd(baseTime));
      }
      thrown := None;
    }

    /** The prologue of run for one polled directory. */
    method PrepareAutoMoveDirectory(d: Path) returns (thrown: Option<Exception>)
      requires d in dirs
      modifies this`autoMoveDirs, fs
      ensures (Snapshot(), thrown) == PrepareOne(old(Snapshot()), d)
    {
      ghost var before := autoMoveDirs;
      var found := GetAutoMoveDirectory(d);
      var am := found.value;
      assert am == AutoMoveDirOf(before, d) && autoMoveDirs == before[d := am];
      if am !in fs.nodes {
        var made := fs.MkDirs(am);
        if !made {
          return Some(CreateFailure(am));
        }
      }
      thrown := None;
    }

    /** The loop of the prologue over the polled directories. */
    method PrepareAutoMoveDirectories() returns (thrown: Option<Exception>)
      modifies this`autoMoveDirs, fs
      ensures (Snapshot(), thrown) == Prepare(Config(), old(Snapshot()), |dirs|)
    {
      ghost var st := Snapshot();
      var k := 0;
      while k < |dirs|
        invariant 0 <= k <= |dirs|
        invariant Prepare(Config(), st, k) == (Snapshot(), None)
      {
        thrown := PrepareAutoMoveDirectory(dirs[k]);
        if thrown.Some? {
          PrepareSticks(Config(), st, k + 1, |dirs|);
          return;
        }
        k := k + 1;
      }
      thrown := None;
    }

    /** The prologue of run: the shutdown flag cleared, and, with auto-move on, every auto-move directory made to exist. */
    method PrepareRun() returns (thrown: Option<Exception>)
      requires Valid()
      modifies this, fs
      ensures Valid()
      ensures (Snapshot(), thrown) == Started(old(Config()), old(Snapshot()))
      ensures Config() == old(Config()) && Rest() == old(Rest())
    {
      shutdownRequested := false;
      if !autoMove {
        return None;
      }
      thrown := PrepareAutoMoveDirectories();
    }

    /**
     * run over the cycles it is given: the prologue, then one cycle per
     * input until shutdown is requested or a cycle throws (which ends the
     * thread). When starting by sleeping, the first pass only clears that
     * flag; nothing else outside the cycles' state changes.
     */
    method Run(envs: seq<Env>) returns (thrown: Option<Exception>)
      requires Valid()
      modifies this, fs
      ensures Valid()
      ensures var p := Started(old(Config()), old(Snapshot()));
        (Snapshot(), thrown) == (if p.1.Some? then p else Cycles(old(Config()), envs, p.0))
      ensures Config() == old(Config())
      ensures var r := old(Rest());
        Rest() == (r.0, r.1, r.2 && Started(old(Config()), old(Snapshot())).1.Some?, r.3, r.4, r.5, r.6)
    {
      thrown := PrepareRun();
      if thrown.Some? {
        return;
      }
      if startBySleeping {
        startBySleeping := false;
      }
      ghost var cfg := Config();
      ghost var st := Snapshot();
      ghost var rest := Rest();
      var k := 0;
      while k < |envs| && !shutdownRequested
        invariant 0 <= k <= |envs| && Valid() && Config() == cfg && Rest() == rest
        invariant Cycles(cfg, envs, st) == Cycles(cfg, envs[k..], Snapshot())
      {
        assert envs[k..][1..] == envs[k + 1..];
        var t := RunCycle(envs[k]);
        if t.Some? {
          return t;
        }
        k := k + 1;
      }
    }
  }

  /**
   * The main DirectoryPoller constructor, which calls setDirectories before
   * anything else: a null array is let through there and fails at its length
   * when the base times are allocated; otherwise the first null entry or
   * non-directory refuses the list; a list that passes gives a new poller
   * with the constructor's defaults.
   */
  method NewDirectoryPoller(fs: FileSystem, ds: Option<seq<Option<Path>>>, userFilter: Option<NameFilter>,
                            systemNames: seq<string>, timeBased: bool) returns (r: Result<DirectoryPoller>)
    ensures ds.None? ==> r == Err(NullPointerException)
    ensures ds.Some? && CheckedDirectories(fs.nodes, ds.value).Err? ==> r == Err(CheckedDirectories(fs.nodes, ds.value).error)
    ensures ds.Some? && CheckedDirectories(fs.nodes, ds.value).Ok? ==>
      r.Ok? && fresh(r.value)
      && r.value.Initial(fs, CheckedDirectories(fs.nodes, ds.value).value, userFilter, systemNames, timeBased)
  {
    if ds.None? {
      return Err(NullPointerException);
    }
    var checked := ValidateDirectories(fs.nodes, ds.value);
    match checked {
      case Err(e) =>
        r := Err(e);
      case Ok(newDirs) =>
        var p := new DirectoryPoller(fs, newDirs, userFilter, systemNames, timeBased);
        r := Ok(p);
    }
  }
}

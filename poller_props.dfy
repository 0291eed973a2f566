// What the polling cycle guarantees, proved about the functions of
// PollerCycle: the skip rule, the stability check, how failures are
// signalled, the names announced after the moves, the order of the
// signals of a quiet cycle, the base-time watermark, the marker sweep and
// the test for a polled root.

module PollerProperties {
  import opened Text
  import opened JavaInt
  import opened Files
  import opened Outcomes
  import opened Events
  import opened PostProcessMarkers
  import opened PollerFilters
  import opened PollerCycle

  // ---------------------------------------------------------------- skip and stability

  /** Missing, hidden, empty, dot-named, polled-root and pending candidates are passed over without a trace. */
  lemma SkippedQuietly(cfg: Settings, env: Env, st: State, orig: Path, dest: Path)
    requires Skip(st.nodes, orig) || IsScanDir(cfg.dirs, st.nodes, orig) || Pending(cfg, env, st.nodes, orig)
    ensures Examine(cfg, env, st, orig, dest) == Pass(st, [], None)
  {
  }

  /** A candidate is moved only when it passed the skip rule and every file checked had kept its recorded size. */
  lemma MovedOnlyWhenStable(cfg: Settings, env: Env, st: State, orig: Path, dest: Path)
    requires Examine(cfg, env, st, orig, dest).moved != []
    ensures !Skip(st.nodes, orig) && !IsScanDir(cfg.dirs, st.nodes, orig) && !Pending(cfg, env, st.nodes, orig)
    ensures AllStable(st.fileSizeMap, st.nodes, FilesToCheck(cfg, env, st.nodes, orig))
    ensures CanRename(st.nodes, cfg.pinned, orig, dest)
    ensures Examine(cfg, env, st, orig, dest).moved == [Name(dest)]
  {
  }

  /** A regular file that passes the skip rule and whose lock, if tried, is acquired. */
  predicate FileCandidate(cfg: Settings, env: Env, st: State, orig: Path)
  {
    IsFile(st.nodes, orig)
    && !Skip(st.nodes, orig) && !IsScanDir(cfg.dirs, st.nodes, orig) && !Pending(cfg, env, st.nodes, orig)
    && (cfg.bypassLockedFiles ==> env.lock(orig) == Acquired)
  }

  /** The stability loop over one file: a stable file is let through, any other has its current size recorded. */
  lemma CheckedSingleFile(cfg: Settings, env: Env, ns: Nodes, sizes: map<Path, int>, f: Path)
    requires !Pending(cfg, env, ns, f)
    ensures CheckedSizes(cfg, env, ns, sizes, {f}) ==
      if Stable(sizes, ns, f) then sizes - {f} else sizes[f := Length(ns, f)]
    ensures AllStable(sizes, ns, {f}) == Stable(sizes, ns, f)
  {
    var r := CheckedSizes(cfg, env, ns, sizes, {f});
    if Stable(sizes, ns, f) {
      assert r.Keys == (sizes - {f}).Keys;
    } else {
      assert r.Keys == sizes.Keys + {f};
    }
  }

  /**
   * A file is moved on the cycle that finds it at the size recorded by the
   * one before; otherwise its current size is recorded and it waits. A
   * file seen for the first time therefore always waits, and a growing
   * file waits until its size holds still for one cycle.
   */
  lemma FileStability(cfg: Settings, env: Env, st: State, orig: Path, dest: Path)
    requires FileCandidate(cfg, env, st, orig)
    ensures Stable(st.fileSizeMap, st.nodes, orig) ==>
      Examine(cfg, env, st, orig, dest) == Relocate(cfg, env, st.(fileSizeMap := st.fileSizeMap - {orig}), orig, dest)
    ensures !Stable(st.fileSizeMap, st.nodes, orig) ==>
      Examine(cfg, env, st, orig, dest) == Pass(st.(fileSizeMap := st.fileSizeMap[orig := Length(st.nodes, orig)]), [], None)
  {
    assert FilesToCheck(cfg, env, st.nodes, orig) == {orig};
    CheckedSingleFile(cfg, env, st.nodes, st.fileSizeMap, orig);
  }

  /** The first sighting of a regular file records its size and leaves it where it is. */
  lemma FirstSightingDefers(cfg: Settings, env: Env, st: State, orig: Path, dest: Path)
    requires FileCandidate(cfg, env, st, orig) && orig !in st.fileSizeMap
    ensures Examine(cfg, env, st, orig, dest) == Pass(st.(fileSizeMap := st.fileSizeMap[orig := Length(st.nodes, orig)]), [], None)
  {
    FileStability(cfg, env, st, orig, dest);
  }

  /**
   * After a deferral, the next look at the file lets it through exactly
   * when its length is the one seen before.
   */
  lemma DeferredThenStable(cfg: Settings, env: Env, st: State, orig: Path, dest: Path, later: Nodes)
    requires FileCandidate(cfg, env, st, orig) && !Stable(st.fileSizeMap, st.nodes, orig)
    ensures var r := Examine(cfg, env, st, orig, dest);
      Stable(r.st.fileSizeMap, later, orig) <==> Length(later, orig) == Length(st.nodes, orig)
  {
    FileStability(cfg, env, st, orig, dest);
  }

  // ---------------------------------------------------------------- failure signalling

  /** A stale destination that cannot be deleted is signalled, and the candidate is left for a later cycle. */
  lemma DeleteFailureSignalled(cfg: Settings, env: Env, st: State, dir: Path, am: Path, name: string)
    requires Child(am, name) in st.nodes && !CanDelete(st.nodes, cfg.pinned, Child(am, name))
    ensures var r := TryMove(cfg, env, st, dir, am, name);
      r.moved == [] && r.thrown.None? && r.st.nodes == st.nodes
      && r.st.log == st.log + [DeleteFailure(Child(dir, name), Child(am, name))]
  {
  }

  /** A rename that fails is signalled, and no FileMoved follows. */
  lemma RenameFailureSignalled(cfg: Settings, env: Env, st: State, orig: Path, dest: Path)
    requires !CanRename(st.nodes, cfg.pinned, orig, dest)
    ensures var r := Relocate(cfg, env, st, orig, dest);
      r.moved == [] && r.st.nodes == st.nodes && r.st.log == st.log + [MoveFailure(orig, dest)]
  {
  }

  /** A marker that cannot be removed after the rename is signalled, and the move is still announced. */
  lemma MarkerFailureStillMoved(cfg: Settings, env: Env, st: State, orig: Path, dest: Path)
    requires CanRename(st.nodes, cfg.pinned, orig, dest)
    requires var ns := Moved(st.nodes, orig, dest);
      MarkerFile(orig) in ns && !CanDelete(ns, cfg.pinned, MarkerFile(orig))
    ensures var r := Relocate(cfg, env, st, orig, dest);
      r.moved == [Name(dest)]
      && r.st.log == st.log + [MarkerFailure(orig, dest), FileMovedSignal(FileMovedEvent(orig, dest))]
  {
  }

  /** A successful rename whose marker goes away cleanly sends exactly one signal, the FileMoved. */
  lemma CleanMoveSignalled(cfg: Settings, env: Env, st: State, orig: Path, dest: Path)
    requires CanRename(st.nodes, cfg.pinned, orig, dest)
    requires var ns := Moved(st.nodes, orig, dest);
      MarkerFile(orig) !in ns || CanDelete(ns, cfg.pinned, MarkerFile(orig))
    ensures var r := Relocate(cfg, env, st, orig, dest);
      r.moved == [Name(dest)] && r.st.log == st.log + [FileMovedSignal(FileMovedEvent(orig, dest))]
  {
  }

  // ---------------------------------------------------------------- the names announced

  /** The names of the destinations of the FileMoved signals in a log, in order. */
  function MovedNames(log: seq<Signal>): (r: seq<string>)
    ensures |r| <= |log|
  {
    if log == [] then []
    else MovedNames(log[..|log| - 1]) + (if log[|log| - 1].FileMovedSignal? then [Name(log[|log| - 1].moved.destination)] else [])
  }

  lemma {:induction false} MovedNamesAppend(a: seq<Signal>, b: seq<Signal>)
    ensures MovedNames(a + b) == MovedNames(a) + MovedNames(b)
    decreases |b|
  {
    if b == [] {
      assert a + b == a;
    } else {
      assert (a + b)[..|a + b| - 1] == a + b[..|b| - 1];
      MovedNamesAppend(a, b[..|b| - 1]);
    }
  }

  /** xs is ys with some entries left out, the rest kept in order. */
  predicate Subsequence<T(==)>(xs: seq<T>, ys: seq<T>)
  {
    if ys == [] then xs == []
    else
      (Subsequence(xs, ys[..|ys| - 1])
       || (xs != [] && xs[|xs| - 1] == ys[|ys| - 1] && Subsequence(xs[..|xs| - 1], ys[..|ys| - 1])))
  }

  /** The signals of the auto-move loop: FileMoved signals and the exception signals of failed moves. */
  predicate MoveSignal(s: Signal)
  {
    s.FileMovedSignal? || s.ExceptionSignal?
  }

  predicate OnlyMoves(xs: seq<Signal>)
  {
    xs == [] || (MoveSignal(xs[0]) && OnlyMoves(xs[1..]))
  }

  lemma {:induction false} OnlyMovesAppend(a: seq<Signal>, b: seq<Signal>)
    requires OnlyMoves(a) && OnlyMoves(b)
    ensures OnlyMoves(a + b)
    decreases |a|
  {
    if a == [] {
      assert a + b == b;
    } else {
      assert (a + b)[1..] == a[1..] + b;
      OnlyMovesAppend(a[1..], b);
    }
  }

  /** What a move appends to the log: one of its three outcomes. */
  lemma RelocateOutcome(cfg: Settings, env: Env, st: State, orig: Path, dest: Path) returns (out: seq<Signal>)
    ensures var r := Relocate(cfg, env, st, orig, dest);
      r.st.log == st.log + out
      && ((out == [MoveFailure(orig, dest)] && r.moved == [])
          || (out == [MarkerFailure(orig, dest), FileMovedSignal(FileMovedEvent(orig, dest))] && r.moved == [Name(dest)])
          || (out == [FileMovedSignal(FileMovedEvent(orig, dest))] && r.moved == [Name(dest)]))
  {
    if !CanRename(st.nodes, cfg.pinned, orig, dest) {
      RenameFailureSignalled(cfg, env, st, orig, dest);
      out := [MoveFailure(orig, dest)];
    } else {
      var ns := Moved(st.nodes, orig, dest);
      if MarkerFile(orig) in ns && !CanDelete(ns, cfg.pinned, MarkerFile(orig)) {
        MarkerFailureStillMoved(cfg, env, st, orig, dest);
        out := [MarkerFailure(orig, dest), FileMovedSignal(FileMovedEvent(orig, dest))];
      } else {
        CleanMoveSignalled(cfg, env, st, orig, dest);
        out := [FileMovedSignal(FileMovedEvent(orig, dest))];
      }
    }
  }

  /** Each outcome of a move holds only move signals, and its FileMoved signals name what was moved. */
  lemma OutcomeSignals(out: seq<Signal>, moved: seq<string>, orig: Path, dest: Path)
    requires (out == [MoveFailure(orig, dest)] && moved == [])
      || (out == [MarkerFailure(orig, dest), FileMovedSignal(FileMovedEvent(orig, dest))] && moved == [Name(dest)])
      || (out == [FileMovedSignal(FileMovedEvent(orig, dest))] && moved == [Name(dest)])
    ensures MovedNames(out) == moved && OnlyMoves(out)
  {
    if |out| == 2 {
      assert out[..1] == [MarkerFailure(orig, dest)];
      assert MovedNames([MarkerFailure(orig, dest)]) == MovedNames([]);
      assert OnlyMoves(out[1..]);
    } else if out == [MoveFailure(orig, dest)] {
      assert MovedNames(out) == MovedNames([]);
    }
  }

  /** The signals a move adds, and the names they report moved. */
  lemma RelocateSignals(cfg: Settings, env: Env, st: State, orig: Path, dest: Path)
    ensures var r := Relocate(cfg, env, st, orig, dest);
      st.log <= r.st.log && MovedNames(r.st.log[|st.log|..]) == r.moved && OnlyMoves(r.st.log[|st.log|..])
  {
    var r := Relocate(cfg, env, st, orig, dest);
    var out := RelocateOutcome(cfg, env, st, orig, dest);
    OutcomeSignals(out, r.moved, orig, dest);
    assert r.st.log[|st.log|..] == out;
  }

  /** The signals the checks on a candidate add, and the names they report moved. */
  lemma ExamineSignals(cfg: Settings, env: Env, st: State, orig: Path, dest: Path)
    ensures var r := Examine(cfg, env, st, orig, dest);
      st.log <= r.st.log && MovedNames(r.st.log[|st.log|..]) == r.moved && OnlyMoves(r.st.log[|st.log|..])
  {
    var r := Examine(cfg, env, st, orig, dest);
    var ns := st.nodes;
    if Skip(ns, orig) || IsScanDir(cfg.dirs, ns, orig) || Pending(cfg, env, ns, orig) {
      assert r.st.log[|st.log|..] == [];
    } else {
      var lock := if IsFile(ns, orig) && cfg.bypassLockedFiles then env.lock(orig) else Acquired;
      if lock == Locked {
        assert r.st.log[|st.log|..] == [];
      } else if lock == OpenFailed {
        assert r.st.log[|st.log|..] == [LockUnverified(orig, dest)];
        assert MovedNames([LockUnverified(orig, dest)]) == MovedNames([]);
      } else if lock == LockFailed {
        assert r.st.log[|st.log|..] == [LockAttemptFailed(orig, dest)];
        assert MovedNames([LockAttemptFailed(orig, dest)]) == MovedNames([]);
      } else if IsDirectory(ns, orig) && WalkFails(cfg, env, ns, orig) {
        assert r.st.log[|st.log|..] == [];
      } else {
        var files := FilesToCheck(cfg, env, ns, orig);
        var st1 := st.(fileSizeMap := CheckedSizes(cfg, env, ns, st.fileSizeMap, files));
        if !AllStable(st.fileSizeMap, ns, files) {
          assert r.st.log[|st.log|..] == [];
        } else {
          RelocateSignals(cfg, env, st1, orig, dest);
        }
      }
    }
  }

  /** One candidate adds to the log, and the FileMoved signals it adds name exactly what it moved. */
  lemma TryMoveSignals(cfg: Settings, env: Env, st: State, dir: Path, am: Path, name: string)
    ensures var r := TryMove(cfg, env, st, dir, am, name);
      st.log <= r.st.log && MovedNames(r.st.log[|st.log|..]) == r.moved && OnlyMoves(r.st.log[|st.log|..])
      && (r.moved == [] || r.moved == [name])
  {
    var r := TryMove(cfg, env, st, dir, am, name);
    var orig := Child(dir, name);
    var dest := Child(am, name);
    ChildParts(am, name);
    if dest in st.nodes && !CanDelete(st.nodes, cfg.pinned, dest) {
      DeleteFailureSignalled(cfg, env, st, dir, am, name);
      assert r.st.log[|st.log|..] == [DeleteFailure(orig, dest)];
      assert MovedNames([DeleteFailure(orig, dest)]) == MovedNames([]);
    } else {
      var st1 := st.(nodes := AfterMkDirs(AfterDelete(st.nodes, cfg.pinned, dest), am));
      ExamineSignals(cfg, env, st1, orig, dest);
      if r.moved != [] {
        MovedOnlyWhenStable(cfg, env, st1, orig, dest);
      }
    }
  }

  /**
   * The auto-move loop over the listed names: the names it hands on to
   * FileSetFound are exactly those named by the FileMoved signals it sent,
   * in the same order, and they keep the listing order.
   */
  lemma {:induction false} TryAllSignals(cfg: Settings, env: Env, st: State, dir: Path, am: Path, names: seq<string>)
    ensures var r := TryAll(cfg, env, st, dir, am, names);
      st.log <= r.st.log && MovedNames(r.st.log[|st.log|..]) == r.moved && Subsequence(r.moved, names)
      && OnlyMoves(r.st.log[|st.log|..])
  {
    if names != [] {
      var init := names[..|names| - 1];
      var last := names[|names| - 1];
      var p := TryAll(cfg, env, st, dir, am, init);
      TryAllSignals(cfg, env, st, dir, am, init);
      if p.thrown.None? {
        var q := TryMove(cfg, env, p.st, dir, am, last);
        assert TryAll(cfg, env, st, dir, am, names) == Pass(q.st, p.moved + q.moved, q.thrown);
        TryMoveSignals(cfg, env, p.st, dir, am, last);
        SliceSplit(st.log, p.st.log, q.st.log);
        MovedNamesAppend(p.st.log[|st.log|..], q.st.log[|p.st.log|..]);
        OnlyMovesAppend(p.st.log[|st.log|..], q.st.log[|p.st.log|..]);
        SubsequenceStep(p.moved, init, last, q.moved);
      } else {
        assert TryAll(cfg, env, st, dir, am, names) == p;
        SubsequenceStep(p.moved, init, last, []);
      }
    }
  }

  lemma SliceSplit(a: seq<Signal>, b: seq<Signal>, c: seq<Signal>)
    requires a <= b <= c
    ensures a <= c && c[|a|..] == b[|a|..] + c[|b|..]
  {
  }

  /** Keeping or dropping one more entry of the listing keeps the order. */
  lemma SubsequenceStep<T>(xs: seq<T>, ys: seq<T>, y: T, extra: seq<T>)
    requires Subsequence(xs, ys) && (extra == [] || extra == [y])
    ensures Subsequence(xs + extra, ys + [y])
  {
    assert (ys + [y])[..|ys|] == ys;
    if extra != [] {
      assert (xs + extra)[..|xs|] == xs;
    } else {
      assert xs + extra == xs;
    }
  }

  /** With nothing moved there is no FileSetFound; otherwise its set is the moved names, resolved in the auto-move directory. */
  lemma AnnouncedSet(cfg: Settings, env: Env, st: State, i: nat, dir: Path, am: Path, moved: seq<string>)
    requires i < |st.baseTime|
    ensures var r := Announce(cfg, env, st, i, dir, am, moved);
      (moved == [] ==> forall s :: s in r.0.log[|st.log|..] ==> !s.FileSetFoundSignal?)
      && (moved != [] ==> |r.0.log| > |st.log| && r.0.log[|st.log|] == FileSetFoundSignal(FileSetFoundEvent(am, FilesIn(am, moved))))
  {
    var r := Announce(cfg, env, st, i, dir, am, moved);
    var st1 := if |moved| > 0 then Notify(env, st, FileSetFoundSignal(FileSetFoundEvent(am, FilesIn(am, moved)))) else st;
    if !st1.shutdownRequested {
      var p := if cfg.sendSingleFileEvent then FoundEach(env, st1, dir, moved) else (st1, false);
      if cfg.sendSingleFileEvent {
        FoundEachOnlyFileFound(env, st1, dir, moved);
      }
      if !p.1 && !p.0.shutdownRequested {
        assert r.0.log == p.0.log + [DirectoryLookupEnd(dir)];
      }
    }
  }

  /** The FileFound loop adds FileFound signals and nothing else, and stops only on a shutdown request. */
  lemma {:induction false} FoundEachOnlyFileFound(env: Env, st: State, dir: Path, files: seq<string>)
    ensures var r := FoundEach(env, st, dir, files).0;
      st.log <= r.log && AllFound(r.log[|st.log|..])
    ensures FoundEach(env, st, dir, files).1 ==> FoundEach(env, st, dir, files).0.shutdownRequested
  {
    if files != [] {
      FoundEachOnlyFileFound(env, st, dir, files[..|files| - 1]);
      var p := FoundEach(env, st, dir, files[..|files| - 1]);
      if !p.1 {
        var s := Notify(env, p.0, FileFoundSignal(Child(dir, files[|files| - 1])));
        assert s.log[|st.log|..] == p.0.log[|st.log|..] + [FileFoundSignal(Child(dir, files[|files| - 1]))];
      }
    }
  }

  // ---------------------------------------------------------------- the order of a cycle's signals

  predicate AllFound(xs: seq<Signal>)
  {
    forall s :: s in xs ==> s.FileFoundSignal?
  }

  /** The announcement of a lookup: an optional FileSetFound, then FileFound signals only. */
  predicate AnnouncePhase(xs: seq<Signal>)
  {
    AllFound(xs) || (xs != [] && xs[0].FileSetFoundSignal? && AllFound(xs[1..]))
  }

  /** The length of the longest run of auto-move signals at the front. */
  function MovePrefix(xs: seq<Signal>): (n: nat)
    ensures n <= |xs| && OnlyMoves(xs[..n])
    ensures n < |xs| ==> !MoveSignal(xs[n])
  {
    if xs == [] then 0
    else if !MoveSignal(xs[0]) then 0
    else
      var n := MovePrefix(xs[1..]);
      assert xs[..n + 1][1..] == xs[1..][..n];
      n + 1
  }

  /**
   * What a lookup sends after its DirectoryLookupStart: the signals of the
   * auto-move loop, the announcement, and DirectoryLookupEnd when the lookup
   * ran to its end.
   */
  predicate LookupTail(dir: Path, xs: seq<Signal>, ended: bool)
  {
    (ended ==> |xs| >= 1 && xs[|xs| - 1] == DirectoryLookupEnd(dir))
    && var body := if ended then xs[..|xs| - 1] else xs;
       AnnouncePhase(body[MovePrefix(body)..])
  }

  /** The signals of the lookup of one directory. */
  predicate LookupLog(dir: Path, xs: seq<Signal>, ended: bool)
  {
    |xs| >= 1 && xs[0] == DirectoryLookupStart(dir) && LookupTail(dir, xs[1..], ended)
  }

  /** The signals of a run of lookups, one after the other. */
  function Flatten(xss: seq<seq<Signal>>): (r: seq<Signal>)
    ensures xss == [] ==> r == []
  {
    if xss == [] then [] else Flatten(xss[..|xss| - 1]) + xss[|xss| - 1]
  }

  lemma {:induction false} MovePrefixSplit(a: seq<Signal>, b: seq<Signal>)
    requires OnlyMoves(a) && (b == [] || !MoveSignal(b[0]))
    ensures MovePrefix(a + b) == |a|
    decreases |a|
  {
    if a == [] {
      assert a + b == b;
    } else {
      assert (a + b)[1..] == a[1..] + b;
      MovePrefixSplit(a[1..], b);
    }
  }

  /** Move signals, an announcement and (when ended) a DirectoryLookupEnd make up what a lookup sends after its start. */
  lemma LookupTailCompose(dir: Path, moves: seq<Signal>, ann: seq<Signal>, ended: bool)
    requires OnlyMoves(moves) && AnnouncePhase(ann)
    ensures LookupTail(dir, moves + ann + (if ended then [DirectoryLookupEnd(dir)] else []), ended)
  {
    var xs := moves + ann + (if ended then [DirectoryLookupEnd(dir)] else []);
    var body := if ended then xs[..|xs| - 1] else xs;
    assert body == moves + ann;
    if ann != [] {
      assert ann[0] in ann;
    }
    MovePrefixSplit(moves, ann);
    assert body[|moves|..] == ann;
  }

  /**
   * The announcement sends an optional FileSetFound and FileFound signals;
   * it ends with DirectoryLookupEnd when the lookup goes on, and returns
   * only on a shutdown request.
   */
  lemma AnnounceLog(cfg: Settings, env: Env, st: State, i: nat, dir: Path, base: Path, files: seq<string>)
    requires i < |st.baseTime|
    ensures var r := Announce(cfg, env, st, i, dir, base, files);
      st.log <= r.0.log
      && var out := r.0.log[|st.log|..];
      (r.1.Continue? ==> |out| >= 1 && out[|out| - 1] == DirectoryLookupEnd(dir) && AnnouncePhase(out[..|out| - 1]))
      && (r.1.Return? ==> AnnouncePhase(out) && r.0.shutdownRequested)
  {
    var st1 := if |files| > 0 then Notify(env, st, FileSetFoundSignal(FileSetFoundEvent(base, FilesIn(base, files)))) else st;
    var head := st1.log[|st.log|..];
    assert AnnouncePhase(head + []) by {
      if |files| > 0 {
        assert head + [] == [FileSetFoundSignal(FileSetFoundEvent(base, FilesIn(base, files)))];
      } else {
        assert head + [] == [];
      }
    }
    if !st1.shutdownRequested {
      var p := if cfg.sendSingleFileEvent then FoundEach(env, st1, dir, files) else (st1, false);
      if cfg.sendSingleFileEvent {
        FoundEachOnlyFileFound(env, st1, dir, files);
      }
      var found := p.0.log[|st1.log|..];
      assert AllFound(found);
      SliceSplit(st.log, st1.log, p.0.log);
      assert AnnouncePhase(head + found) by {
        if |files| > 0 {
          assert (head + found)[1..] == found;
        } else {
          assert head + found == found;
        }
      }
      if !p.1 && !p.0.shutdownRequested {
        var r := Announce(cfg, env, st, i, dir, base, files);
        assert r.0.log == p.0.log + [DirectoryLookupEnd(dir)];
        assert r.0.log[|st.log|..] == head + found + [DirectoryLookupEnd(dir)];
      }
    }
  }

  /** Logs a <= b <= c where b adds move signals and c then adds an announcement (and, when ended, a DirectoryLookupEnd). */
  lemma TailFromPhases(dir: Path, a: seq<Signal>, b: seq<Signal>, c: seq<Signal>, ended: bool)
    requires a <= b <= c && OnlyMoves(b[|a|..])
    requires ended ==> var out := c[|b|..];
      |out| >= 1 && out[|out| - 1] == DirectoryLookupEnd(dir) && AnnouncePhase(out[..|out| - 1])
    requires !ended ==> AnnouncePhase(c[|b|..])
    ensures LookupTail(dir, c[|a|..], ended)
  {
    var moves := b[|a|..];
    var out := c[|b|..];
    SliceSplit(a, b, c);
    if ended {
      LookupTailCompose(dir, moves, out[..|out| - 1], true);
      assert out == out[..|out| - 1] + [DirectoryLookupEnd(dir)];
      assert c[|a|..] == moves + out[..|out| - 1] + [DirectoryLookupEnd(dir)];
    } else {
      LookupTailCompose(dir, moves, out, false);
      assert c[|a|..] == moves + out + [];
    }
  }

  /** The auto-move part of a lookup: the sweep sends nothing, then the move signals and the announcement follow. */
  lemma AutoMovedSignals(cfg: Settings, env: Env, st: State, i: nat, dir: Path, am: Path, names: seq<string>)
    requires i < |st.baseTime|
    ensures var r := AutoMoved(cfg, env, st, i, dir, am, names);
      st.log <= r.0.log && LookupTail(dir, r.0.log[|st.log|..], r.1.Continue?)
      && (r.1.Return? ==> r.0.shutdownRequested)
  {
    var r := AutoMoved(cfg, env, st, i, dir, am, names);
    var p := SweepAll(cfg, env, st, am, Markers(env, st.nodes, am));
    if p.thrown.Some? {
      assert r == (p.st, Throw(p.thrown.value));
      TailFromPhases(dir, st.log, st.log, st.log, false);
    } else {
      var q := TryAll(cfg, env, p.st, dir, am, names);
      TryAllSignals(cfg, env, p.st, dir, am, names);
      if q.thrown.Some? {
        assert r == (q.st, Throw(q.thrown.value));
        TailFromPhases(dir, st.log, q.st.log, q.st.log, false);
      } else {
        assert r == Announce(cfg, env, q.st, i, dir, am, q.moved);
        AnnounceLog(cfg, env, q.st, i, dir, am, q.moved);
        TailFromPhases(dir, st.log, q.st.log, r.0.log, r.1.Continue?);
      }
    }
  }

  /** Without auto-move a lookup sends only its announcement. */
  lemma LookupBodySignals(cfg: Settings, env: Env, st: State, i: nat)
    requires i < |cfg.dirs| && i < |st.baseTime|
    ensures var r := LookupBody(cfg, env, st, i);
      st.log <= r.0.log && LookupTail(cfg.dirs[i], r.0.log[|st.log|..], r.1.Continue?)
      && (r.1.Return? ==> r.0.shutdownRequested)
  {
    var dir := cfg.dirs[i];
    var r := LookupBody(cfg, env, st, i);
    var names := Listed(cfg, env, st, i);
    if !cfg.autoMove {
      AnnounceLog(cfg, env, st, i, dir, dir, names);
      TailFromPhases(dir, st.log, st.log, r.0.log, r.1.Continue?);
    } else {
      var am := AutoMoveDirOf(st.autoMoveDirs, dir);
      AutoMovedSignals(cfg, env, st.(autoMoveDirs := st.autoMoveDirs[dir := am]), i, dir, am, names);
    }
  }

  /** The signals of one lookup, and that it returns only on a shutdown request. */
  lemma LookupSignals(cfg: Settings, env: Env, st: State, i: nat)
    requires i < |cfg.dirs| && i < |st.baseTime|
    ensures var r := Lookup(cfg, env, st, i);
      LookupStep(cfg.dirs[i], st, r.0, r.1)
  {
    var dir := cfg.dirs[i];
    var r := Lookup(cfg, env, st, i);
    var st1 := Notify(env, st, DirectoryLookupStart(dir));
    if st1.shutdownRequested {
      LookupTailCompose(dir, [], [], false);
      assert r.0.log[|st.log|..][1..] == [] + [] + [];
    } else {
      LookupBodySignals(cfg, env, st1, i);
      SliceSplit(st.log, st1.log, r.0.log);
      assert r.0.log[|st.log|..][1..] == r.0.log[|st1.log|..];
    }
  }

  /**
   * The signals of the lookups of the first |lookups| directories, one per
   * directory in order: each but the last reached its DirectoryLookupEnd,
   * and the last did when lastEnded.
   */
  predicate LookupLogs(dirs: seq<Path>, lookups: seq<seq<Signal>>, lastEnded: bool)
    decreases |lookups|
  {
    lookups == []
    || (|lookups| <= |dirs|
        && LookupLogs(dirs, lookups[..|lookups| - 1], true)
        && LookupLog(dirs[|lookups| - 1], lookups[|lookups| - 1], lastEnded))
  }

  /** LookupLogs read entry by entry. */
  lemma {:induction false} LookupLogsEach(dirs: seq<Path>, lookups: seq<seq<Signal>>, lastEnded: bool, j: nat)
    requires LookupLogs(dirs, lookups, lastEnded) && j < |lookups|
    ensures j < |dirs| && LookupLog(dirs[j], lookups[j], lastEnded || j < |lookups| - 1)
    decreases |lookups|
  {
    if j < |lookups| - 1 {
      LookupLogsEach(dirs, lookups[..|lookups| - 1], true, j);
      assert lookups[..|lookups| - 1][j] == lookups[j];
    }
  }

  /** What one lookup from state a leaves: the state b and how the loop goes on. */
  predicate LookupStep(dir: Path, a: State, b: State, exit: Exit)
  {
    a.log <= b.log && LookupLog(dir, b.log[|a.log|..], exit.Continue?)
    && (exit.Return? ==> b.shutdownRequested)
  }

  /**
   * What the lookup loop over the first k directories from state st leaves:
   * the signals of one lookup per directory it reached, all of them but the
   * last ended, the last also unless the loop returned or threw, and a
   * return only on a shutdown request.
   */
  predicate LookupsReport(dirs: seq<Path>, st: State, r: (State, Exit), lookups: seq<seq<Signal>>, k: nat)
  {
    st.log <= r.0.log && r.0.log[|st.log|..] == Flatten(lookups)
    && |lookups| <= k && (r.1.Continue? ==> |lookups| == k) && (!r.1.Continue? ==> |lookups| >= 1)
    && LookupLogs(dirs, lookups, r.1.Continue?)
    && (r.1.Return? ==> r.0.shutdownRequested)
  }

  /** One more lookup after a run of lookups that all went on. */
  lemma ReportStep(dirs: seq<Path>, st: State, p: (State, Exit), q: (State, Exit), prev: seq<seq<Signal>>, k: nat)
    requires 0 < k <= |dirs|
    requires LookupsReport(dirs, st, p, prev, k - 1) && p.1.Continue?
    requires LookupStep(dirs[k - 1], p.0, q.0, q.1)
    ensures LookupsReport(dirs, st, q, prev + [q.0.log[|p.0.log|..]], k)
  {
    var lookups := prev + [q.0.log[|p.0.log|..]];
    SliceSplit(st.log, p.0.log, q.0.log);
    assert lookups[..|lookups| - 1] == prev;
    assert |lookups| == k;
  }

  /** The signals of the lookup loop over the first k directories. */
  lemma {:induction false} LookupAllSignals(cfg: Settings, env: Env, st: State, k: nat) returns (lookups: seq<seq<Signal>>)
    requires k <= |cfg.dirs| && |st.baseTime| == |cfg.dirs|
    ensures LookupsReport(cfg.dirs, st, LookupAll(cfg, env, st, k), lookups, k)
  {
    if k == 0 {
      lookups := [];
    } else {
      var p := LookupAll(cfg, env, st, k - 1);
      var prev := LookupAllSignals(cfg, env, st, k - 1);
      if !p.1.Continue? {
        assert LookupAll(cfg, env, st, k) == p;
        lookups := prev;
      } else {
        var q := Lookup(cfg, env, p.0, k - 1);
        assert LookupAll(cfg, env, st, k) == q;
        LookupSignals(cfg, env, p.0, k - 1);
        ReportStep(cfg.dirs, st, p, q, prev, k);
        lookups := prev + [q.0.log[|p.0.log|..]];
      }
    }
  }

  /**
   * The signals of a cycle that starts without a shutdown request:
   * CycleStart, then the signals of one lookup per polled directory in
   * order, each but the last ended by its DirectoryLookupEnd, then CycleEnd
   * with the new base times. `complete` says every directory's lookup
   * reached its end and `ended` that CycleEnd was sent; CycleEnd is missing
   * only on a shutdown request or an exception, and an exception always
   * cuts a lookup short.
   */
  lemma CycleSignals(cfg: Settings, env: Env, st: State) returns (lookups: seq<seq<Signal>>, complete: bool, ended: bool)
    requires |st.baseTime| == |cfg.dirs| && !st.shutdownRequested
    ensures var r := Cycle(cfg, env, st);
      st.log <= r.0.log
      && r.0.log[|st.log|..] == [CycleStart] + Flatten(lookups) + (if ended then [CycleEnd(r.0.baseTime)] else [])
      && |lookups| <= |cfg.dirs|
      && LookupLogs(cfg.dirs, lookups, complete)
      && (complete ==> |lookups| == |cfg.dirs|)
      && (ended ==> complete)
      && (!ended ==> r.0.shutdownRequested || r.1.Some?)
      && (r.1.Some? ==> !complete)
  {
    var r := Cycle(cfg, env, st);
    var st1 := Notify(env, st, CycleStart);
    if st1.shutdownRequested {
      lookups, complete, ended := [], |cfg.dirs| == 0, false;
    } else {
      var p := LookupAll(cfg, env, st1, |cfg.dirs|);
      lookups := LookupAllSignals(cfg, env, st1, |cfg.dirs|);
      SliceSplit(st.log, st1.log, p.0.log);
      complete := p.1.Continue?;
      ended := p.1.Continue? && !p.0.shutdownRequested;
      if ended {
        assert r.0.log == p.0.log + [CycleEnd(r.0.baseTime)];
      }
    }
  }

  // ---------------------------------------------------------------- the signals of a quiet cycle

  /** The lookup signals of directories that list nothing: a start and an end for each, in order. */
  function QuietLookups(ds: seq<Path>): (r: seq<Signal>)
    ensures |r| == 2 * |ds|
  {
    if ds == [] then []
    else QuietLookups(ds[..|ds| - 1]) + [DirectoryLookupStart(ds[|ds| - 1]), DirectoryLookupEnd(ds[|ds| - 1])]
  }

  /** A cycle with no auto-move, no shutdown request and no entries in any polled directory. */
  predicate QuietCycle(cfg: Settings, env: Env, st: State)
  {
    !cfg.autoMove && env.stopAt.None? && !st.shutdownRequested
    && forall i :: 0 <= i < |cfg.dirs| ==> env.listing(st.nodes, cfg.dirs[i]) == []
  }

  lemma {:induction false} QuietLookupAll(cfg: Settings, env: Env, st: State, k: nat)
    requires k <= |cfg.dirs| && |st.baseTime| == |cfg.dirs|
    requires QuietCycle(cfg, env, st)
    ensures var r := LookupAll(cfg, env, st, k);
      r.1 == Continue && r.0.nodes == st.nodes && !r.0.shutdownRequested
      && r.0.log == st.log + QuietLookups(cfg.dirs[..k])
  {
    if k > 0 {
      QuietLookupAll(cfg, env, st, k - 1);
      var p := LookupAll(cfg, env, st, k - 1);
      var dir := cfg.dirs[k - 1];
      var st1 := Notify(env, p.0, DirectoryLookupStart(dir));
      assert Listed(cfg, env, st1, k - 1) == [];
      assert cfg.dirs[..k][..k - 1] == cfg.dirs[..k - 1];
    }
  }

  /**
   * A quiet cycle sends CycleStart, then DirectoryLookupStart and
   * DirectoryLookupEnd for each polled directory in order, then CycleEnd
   * with the new base times, and changes nothing on disk.
   */
  lemma QuietCycleLog(cfg: Settings, env: Env, st: State)
    requires |st.baseTime| == |cfg.dirs| && QuietCycle(cfg, env, st)
    ensures var r := Cycle(cfg, env, st);
      r.1.None? && r.0.nodes == st.nodes
      && r.0.log == st.log + [CycleStart] + QuietLookups(cfg.dirs) + [CycleEnd(r.0.baseTime)]
  {
    var st1 := Notify(env, st, CycleStart);
    QuietLookupAll(cfg, env, st1, |cfg.dirs|);
    assert cfg.dirs[..|cfg.dirs|] == cfg.dirs;
  }

  /** A cycle that starts with shutdown requested does nothing at all. */
  lemma ShutdownBeforeCycle(cfg: Settings, env: Env, st: State)
    requires |st.baseTime| == |cfg.dirs| && st.shutdownRequested
    ensures Cycle(cfg, env, st) == (st, None)
  {
  }

  // ---------------------------------------------------------------- the base-time watermark

  /** Every base time is at least the old one. */
  predicate NoLower(a: seq<int>, b: seq<int>)
  {
    |a| == |b| && forall i :: 0 <= i < |a| ==> a[i] >= b[i]
  }

  lemma NoLowerTransitive(a: seq<int>, b: seq<int>, c: seq<int>)
    requires NoLower(a, b) && NoLower(b, c)
    ensures NoLower(a, c)
  {
  }

  /**
   * A lookup of directory i that gets to its end: without time-based
   * filtering the base times stay; in polling-time mode base time i
   * becomes the time of the cycle; in modification-time mode it becomes
   * the newest of its old value and the announced files' times.
   */
  lemma WatermarkOfLookup(cfg: Settings, env: Env, st: State, i: nat, dir: Path, base: Path, files: seq<string>)
    requires i < |st.baseTime|
    ensures var r := Announce(cfg, env, st, i, dir, base, files);
      r.1 == Continue ==>
        && (!IsTimeBased(cfg.filter) ==> r.0.baseTime == st.baseTime)
        && (IsTimeBased(cfg.filter) && cfg.timeBasedOnLastLookup ==> r.0.baseTime == st.baseTime[i := env.now])
        && (IsTimeBased(cfg.filter) && !cfg.timeBasedOnLastLookup ==> r.0.baseTime == st.baseTime[i := MaxModified(st.baseTime[i], st.nodes, dir, files)])
  {
    var st1 := if |files| > 0 then Notify(env, st, FileSetFoundSignal(FileSetFoundEvent(base, FilesIn(base, files)))) else st;
    if cfg.sendSingleFileEvent {
      var p := FoundEach(env, st1, dir, files);
      assert p.0.baseTime == st.baseTime && p.0.nodes == st.nodes;
    }
  }

  /** In modification-time mode a lookup never lowers a base time. */
  lemma LookupNoLower(cfg: Settings, env: Env, st: State, i: nat)
    requires i < |cfg.dirs| && i < |st.baseTime|
    requires IsTimeBased(cfg.filter) ==> !cfg.timeBasedOnLastLookup
    ensures NoLower(Lookup(cfg, env, st, i).0.baseTime, st.baseTime)
  {
    var st1 := Notify(env, st, DirectoryLookupStart(cfg.dirs[i]));
    if !st1.shutdownRequested {
      var dir := cfg.dirs[i];
      var names := Listed(cfg, env, st1, i);
      if !cfg.autoMove {
        AnnounceNoLower(cfg, env, st1, i, dir, dir, names);
      } else {
        var am := AutoMoveDirOf(st1.autoMoveDirs, dir);
        var st2 := st1.(autoMoveDirs := st1.autoMoveDirs[dir := am]);
        var p := SweepAll(cfg, env, st2, am, Markers(env, st2.nodes, am));
        if p.thrown.None? {
          var q := TryAll(cfg, env, p.st, dir, am, names);
          if q.thrown.None? {
            AnnounceNoLower(cfg, env, q.st, i, dir, am, q.moved);
          }
        }
      }
    }
  }

  lemma AnnounceNoLower(cfg: Settings, env: Env, st: State, i: nat, dir: Path, base: Path, files: seq<string>)
    requires i < |st.baseTime|
    requires IsTimeBased(cfg.filter) ==> !cfg.timeBasedOnLastLookup
    ensures NoLower(Announce(cfg, env, st, i, dir, base, files).0.baseTime, st.baseTime)
  {
    var st1 := if |files| > 0 then Notify(env, st, FileSetFoundSignal(FileSetFoundEvent(base, FilesIn(base, files)))) else st;
    if cfg.sendSingleFileEvent {
      var p := FoundEach(env, st1, dir, files);
      assert p.0.baseTime == st.baseTime;
    }
  }

  lemma {:induction false} LookupAllNoLower(cfg: Settings, env: Env, st: State, k: nat)
    requires k <= |cfg.dirs| && |st.baseTime| == |cfg.dirs|
    requires IsTimeBased(cfg.filter) ==> !cfg.timeBasedOnLastLookup
    ensures NoLower(LookupAll(cfg, env, st, k).0.baseTime, st.baseTime)
  {
    if k > 0 {
      LookupAllNoLower(cfg, env, st, k - 1);
      var p := LookupAll(cfg, env, st, k - 1);
      if p.1.Continue? {
        var q := Lookup(cfg, env, p.0, k - 1);
        assert LookupAll(cfg, env, st, k) == q;
        LookupNoLower(cfg, env, p.0, k - 1);
        NoLowerTransitive(q.0.baseTime, p.0.baseTime, st.baseTime);
      } else {
        assert LookupAll(cfg, env, st, k) == p;
      }
    }
  }

  /** Unless the base time is the time of the last lookup, a whole cycle never lowers any base time. */
  lemma CycleNoLower(cfg: Settings, env: Env, st: State)
    requires |st.baseTime| == |cfg.dirs|
    requires IsTimeBased(cfg.filter) ==> !cfg.timeBasedOnLastLookup
    ensures NoLower(Cycle(cfg, env, st).0.baseTime, st.baseTime)
  {
    if !st.shutdownRequested {
      LookupAllNoLower(cfg, env, Notify(env, st, CycleStart), |cfg.dirs|);
    }
  }

  // ---------------------------------------------------------------- the marker sweep

  /** A marker whose original is gone is deleted, and nothing else happens. */
  lemma OrphanMarkerDeleted(cfg: Settings, env: Env, st: State, am: Path, m: string)
    requires IsMarkerName(m) && Child(am, OriginalName(m)) !in st.nodes
    ensures SweepOne(cfg, env, st, am, m) == Pass(st.(nodes := AfterDelete(st.nodes, cfg.pinned, Child(am, m))), [], None)
  {
  }

  /** With no delay configured, markers of files still present are left alone. */
  lemma NoDelayKeepsMarkers(cfg: Settings, env: Env, st: State, am: Path, m: string)
    requires IsMarkerName(m) && Child(am, OriginalName(m)) in st.nodes && DelayMillis(cfg) <= 0
    ensures SweepOne(cfg, env, st, am, m) == Pass(st, [], None)
  {
  }

  /** A marker without an action ends the cycle with a NullPointerException, as the switch on a null string does. */
  lemma MissingActionThrows(cfg: Settings, env: Env, st: State, am: Path, m: string)
    requires IsMarkerName(m) && Child(am, OriginalName(m)) in st.nodes
    requires PollerExpired(cfg, env, st.nodes, Child(am, m))
    requires "action" !in MarkerContents(st.nodes, Child(am, m))
    ensures SweepOne(cfg, env, st, am, m) == Pass(st, [], Some(NullPointerException))
  {
  }

  /**
   * The poller's own expiry test is the reverse of the marker manager's:
   * for a non-empty readable file, with the same positive delay and no
   * overflow, the poller acts when the file is younger than the delay,
   * the manager when it is older; they agree only in rejecting an age of
   * exactly the delay.
   */
  lemma PollerExpiryInverted(cfg: Settings, env: Env, ns: Nodes, p: Path, m: PostProcessMarkerManager)
    requires cfg.postProcessDelayMinutes == m.postProcessDelayMinutes as int > 0
    requires IsFile(ns, p) && CanRead(ns, p) && Length(ns, p) > 0
    requires 0 <= env.now - LastModified(ns, p) <= LONG_MAX
    ensures var age := env.now - LastModified(ns, p);
      (PollerExpired(cfg, env, ns, p) <==> age < m.DelayMillis())
      && (m.IsPostProcessFileExpired(ns, p, env.now) <==> age > m.DelayMillis())
      && !(PollerExpired(cfg, env, ns, p) && m.IsPostProcessFileExpired(ns, p, env.now))
  {
    assert DelayMillis(cfg) == m.DelayMillis();
  }

  /** The poller's pending test looks at the file only: whatever its marker holds, the answer is the same. */
  lemma PendingIgnoresMarker(cfg: Settings, env: Env, ns: Nodes, f: Path, marker: Node)
    ensures Pending(cfg, env, ns[MarkerFile(f) := marker], f) == Pending(cfg, env, ns, f)
  {
    ChildParts(Parent(f), MarkerName(Name(f)));
    assert |Name(MarkerFile(f))| != |Name(f)|;
  }

  // ---------------------------------------------------------------- polled roots

  /** When every polled directory exists, a path counts as a polled root exactly when it is a directory in the list. */
  lemma {:induction false} ScanDirWhenRootsExist(dirs: seq<Path>, ns: Nodes, f: Path)
    requires forall i :: 0 <= i < |dirs| ==> dirs[i] in ns
    ensures SameAsScanDir(dirs, ns, f) <==> f in dirs
  {
    if dirs != [] {
      ScanDirWhenRootsExist(dirs[1..], ns, f);
      assert dirs == [dirs[0]] + dirs[1..];
    }
  }

  /** A polled directory that has gone missing hides every root listed after it. */
  lemma MissingRootHidesLater(dirs: seq<Path>, ns: Nodes, f: Path, k: nat)
    requires k < |dirs| && dirs[k] !in ns && f !in dirs[..k + 1]
    ensures !SameAsScanDir(dirs, ns, f)
    decreases k
  {
    if dirs[0] in ns {
      assert dirs[0] != f;
      assert k > 0;
      assert dirs[1..][..k] == dirs[1..k + 1];
      MissingRootHidesLater(dirs[1..], ns, f, k - 1);
    }
  }
}

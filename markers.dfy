// Post-process markers: a file ".~NAME~" beside NAME that tells the poller
// what to do with NAME once a delay has passed, and the manager class that
// names, ages, reads and removes such markers.

module PostProcessMarkers {
  import opened Text
  import opened Files
  import opened JavaInt

  /** String.format(".~%s~", name) */
  function MarkerName(name: string): string
  {
    ".~" + name + "~"
  }

  /** The test the poller applies to a name in the quarantine directory. */
  predicate IsMarkerName(m: string)
  {
    |m| > 3 && StartsWith(m, ".~") && EndsWith(m, "~")
  }

  /** The name of the file a marker refers to: the marker without its affixes. */
  function OriginalName(m: string): string
    requires |m| >= 3
  {
    m[2..|m| - 1]
  }

  lemma MarkerNameRoundTrip(name: string)
    requires name != []
    ensures IsMarkerName(MarkerName(name))
    ensures OriginalName(MarkerName(name)) == name
  {
    var m := MarkerName(name);
    assert m[..2] == ".~" && m[|m| - 1..] == "~";
    assert m[2..|m| - 1] == name;
  }

  /** Every name that looks like a marker is the marker of a non-empty name. */
  lemma MarkerOfOriginalName(m: string)
    requires IsMarkerName(m)
    ensures OriginalName(m) != [] && MarkerName(OriginalName(m)) == m
  {
    assert m[..2] == ".~" && m[|m| - 1..] == "~";
    assert m == m[..2] + m[2..|m| - 1] + m[|m| - 1..];
  }

  /** The marker file of a file: same directory, name wrapped in ".~" and "~". */
  function MarkerFile(file: Path): (m: Path)
    ensures Parent(m) == Parent(file) && Name(m) == MarkerName(Name(file))
    ensures m != file
  {
    ChildParts(Parent(file), MarkerName(Name(file)));
    Child(Parent(file), MarkerName(Name(file)))
  }

  /** line.split("=", 2) gave two parts and the first is key. */
  predicate Defines(line: string, key: string)
  {
    SplitFirst(line, '=').Some? && SplitFirst(line, '=').value.0 == key
  }

  function ValueOf(line: string): string
    requires SplitFirst(line, '=').Some?
  {
    SplitFirst(line, '=').value.1
  }

  /** The map readPostProcessFile builds from the lines of a marker. */
  function ParseMarkerLines(lines: seq<string>): map<string, string>
  {
    if lines == [] then map[]
    else
      var m := ParseMarkerLines(lines[..|lines| - 1]);
      match SplitFirst(lines[|lines| - 1], '=')
      case None => m
      case Some(kv) => m[kv.0 := kv.1]
  }

  /** The index of the last line that defines key, or -1 when none does. */
  function LastDefinition(lines: seq<string>, key: string): (i: int)
    ensures -1 <= i < |lines|
    ensures i >= 0 ==> Defines(lines[i], key)
    ensures forall j :: i < j < |lines| ==> !Defines(lines[j], key)
  {
    if lines == [] then -1
    else if Defines(lines[|lines| - 1], key) then |lines| - 1
    else LastDefinition(lines[..|lines| - 1], key)
  }

  /**
   * A key is present exactly when some line defines it, and its value is the
   * text after the first '=' of the last line that does.
   */
  lemma {:induction false} ParseMarkerLinesLastWins(lines: seq<string>, key: string)
    ensures var m := ParseMarkerLines(lines);
      var i := LastDefinition(lines, key);
      (key in m <==> i >= 0) && (key in m ==> m[key] == ValueOf(lines[i]))
  {
    if lines != [] {
      var init := lines[..|lines| - 1];
      ParseMarkerLinesLastWins(init, key);
      var i := LastDefinition(init, key);
      if i >= 0 {
        assert lines[i] == init[i];
      }
    }
  }

  /** A marker written as key=value lines reads back as the pairs (keys free of '='). */
  lemma MarkerLineRoundTrip(key: string, value: string)
    requires '=' !in key
    ensures ParseMarkerLines([key + "=" + value]) == map[key := value]
  {
    SplitFirstOfJoined(key, '=', value);
    assert [key + "=" + value][..0] == [];
  }

  /**
   * What reading a marker yields: its parsed lines, or an empty map when
   * it cannot be opened for reading (missing, a directory, unreadable).
   */
  function MarkerContents(ns: Nodes, marker: Path): map<string, string>
  {
    if IsFile(ns, marker) && CanRead(ns, marker) then ParseMarkerLines(ns[marker].lines) else map[]
  }

  /** readPostProcessFile: line by line, later keys overwriting earlier ones. */
  method ReadPostProcessFile(fs: FileSystem, marker: Path) returns (r: map<string, string>)
    ensures r == MarkerContents(fs.nodes, marker)
  {
    r := map[];
    if !(IsFile(fs.nodes, marker) && CanRead(fs.nodes, marker)) {
      return;
    }
    var lines := fs.nodes[marker].lines;
    var i := 0;
    while i < |lines|
      invariant 0 <= i <= |lines|
      invariant r == ParseMarkerLines(lines[..i])
    {
      assert lines[..i + 1][..i] == lines[..i];
      var row := SplitFirst(lines[i], '=');
      if row.Some? {
        r := r[row.value.0 := row.value.1];
      }
      i := i + 1;
    }
    assert lines[..i] == lines;
  }

  /**
   * A marker is old enough when it is a non-empty readable file last changed
   * more than the delay ago, the age computed in long arithmetic.
   */
  predicate AgedMarker(ns: Nodes, marker: Path, now: int, delayMillis: int)
  {
    IsFile(ns, marker) && CanRead(ns, marker) && Length(ns, marker) > 0
    && Wrap64(now - LastModified(ns, marker)) > delayMillis
  }

  class PostProcessMarkerManager {
    var postProcessDelayMinutes: Int32

    constructor ()
      ensures postProcessDelayMinutes == 0
    {
      postProcessDelayMinutes := 0;
    }

    constructor WithDelay(delay: Int32)
      ensures postProcessDelayMinutes == delay
    {
      postProcessDelayMinutes := delay;
    }

    method SetPostProcessDelayMinutes(delay: Int32)
      modifies this
      ensures postProcessDelayMinutes == delay
    {
      postProcessDelayMinutes := delay;
    }

    /** The delay in milliseconds, computed in long arithmetic (it cannot overflow). */
    function DelayMillis(): (d: int)
      reads this
      ensures LONG_MIN <= d <= LONG_MAX
    {
      postProcessDelayMinutes as int * 60000
    }

    /** With no delay every marker counts as expired; otherwise it must have aged past it. */
    predicate IsPostProcessFileExpired(ns: Nodes, marker: Path, now: int)
      reads this
      ensures DelayMillis() < 1 ==> IsPostProcessFileExpired(ns, marker, now)
      ensures DelayMillis() >= 1 && IsPostProcessFileExpired(ns, marker, now) ==>
        IsFile(ns, marker) && Length(ns, marker) > 0
    {
      DelayMillis() < 1 || AgedMarker(ns, marker, now, DelayMillis())
    }

    /** A file is held back while its marker has not expired; a missing marker keeps it pending. */
    predicate PostProcessDelayPending(ns: Nodes, file: Path, now: int)
      reads this
      ensures PostProcessDelayPending(ns, file, now) ==> DelayMillis() >= 1
      ensures DelayMillis() >= 1 && !IsFile(ns, MarkerFile(file)) ==> PostProcessDelayPending(ns, file, now)
    {
      !IsPostProcessFileExpired(ns, MarkerFile(file), now)
    }

    /** removePostProcessMarker: true when the marker is gone afterwards. */
    method RemovePostProcessMarker(fs: FileSystem, file: Path) returns (ok: bool)
      modifies fs
      ensures var marker := MarkerFile(file);
        ok == (marker !in old(fs.nodes) || CanDelete(old(fs.nodes), fs.pinned, marker))
        && fs.nodes == AfterDelete(old(fs.nodes), fs.pinned, marker)
    {
      var marker := MarkerFile(file);
      if marker !in fs.nodes {
        return true;
      }
      ok := fs.Delete(marker);
    }
  }

  /** Without a delay nothing is ever pending. */
  lemma NoDelayNeverPending(m: PostProcessMarkerManager, ns: Nodes, file: Path, now: int)
    requires m.postProcessDelayMinutes <= 0
    ensures !m.PostProcessDelayPending(ns, file, now)
  {
  }

  /**
   * With a delay, a file is pending exactly until its marker exists as a
   * non-empty readable file older than the delay; a file with no marker
   * at all stays pending.
   */
  lemma PendingUntilMarkerAged(m: PostProcessMarkerManager, ns: Nodes, file: Path, now: int)
    requires m.postProcessDelayMinutes > 0
    ensures m.PostProcessDelayPending(ns, file, now) <==> !AgedMarker(ns, MarkerFile(file), now, m.postProcessDelayMinutes as int * 60000)
    ensures MarkerFile(file) !in ns ==> m.PostProcessDelayPending(ns, file, now)
  {
  }

  /** Removing a marker twice succeeds the second time too, and leaves the file alone. */
  lemma RemoveMarkerIdempotent(ns: Nodes, pinned: set<Path>, file: Path)
    requires Name(file) != []
    ensures var once := AfterDelete(ns, pinned, MarkerFile(file));
      var marker := MarkerFile(file);
      (marker !in once ==> AfterDelete(once, pinned, marker) == once)
      && (file in once <==> file in ns)
  {
  }
}

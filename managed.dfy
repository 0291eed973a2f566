// org.sadun.util.polling.ManagedDirectoryPoller: the JMX-manageable
// DirectoryPoller. Its attributes are strings (the directory list, the
// accepted filename pattern, the events ordering, the timer name), and it
// runs the poller in a thread of its own or, with a JMX timer, only
// records that it is listening to timing events. The subclass is modelled
// as an object that holds the DirectoryPoller it extends.

module ManagedPolling {
  import opened Text
  import opened Files
  import opened Outcomes
  import opened PollerFilters
  import opened Comparators
  import opened GenericFileComparators
  import opened Poller
  import PollerCycle

  // ------------------------------------------------------------ directories

  function PathStrings(ds: seq<Path>): (r: seq<string>)
    ensures |r| == |ds| && forall i :: 0 <= i < |ds| ==> r[i] == PathString(ds[i])
  {
    seq(|ds|, i requires 0 <= i < |ds| => PathString(ds[i]))
  }

  /** getControlledDirectories: the directories' paths separated by commas, with none after the last. */
  function ControlledDirectories(ds: seq<Path>): string
  {
    Join(PathStrings(ds), ',')
  }

  predicate NoComma(p: Path)
  {
    forall k :: 0 <= k < |p| ==> ',' !in p[k]
  }

  /** Paths that survive being written out and read back as a directory list. */
  predicate Listable(ds: seq<Path>)
  {
    forall i :: 0 <= i < |ds| ==> WellNamed(ds[i]) && NoComma(ds[i])
  }

  predicate Distinct(ds: seq<Path>)
  {
    forall i, j :: 0 <= i < j < |ds| ==> ds[i] != ds[j]
  }

  predicate AllDirectories(ns: Nodes, ds: seq<Path>)
  {
    forall i :: 0 <= i < |ds| ==> IsDirectory(ns, ds[i])
  }

  /**
   * addDirectory on the poller's list: a directory already there is not
   * added again, a busy poller refuses, and setDirectories checks the
   * longer list.
   */
  function Added(ns: Nodes, busy: bool, ds: seq<Path>, dir: Path): (Result<()>, seq<Path>)
  {
    if dir in ds then (Ok(()), ds)
    else if busy then (Err(IllegalStateException), ds)
    else if AllDirectories(ns, ds + [dir]) then (Ok(()), ds + [dir])
    else (Err(IllegalArgumentException), ds)
  }

  /** setControlledDirectories: each comma-separated token added in turn, the first refusal ending the loop. */
  function AddedAll(ns: Nodes, busy: bool, ds: seq<Path>, tokens: seq<string>): (Result<()>, seq<Path>)
    decreases |tokens|
  {
    if tokens == [] then (Ok(()), ds)
    else
      var p := Added(ns, busy, ds, ParsePath(tokens[0]));
      if p.0.Err? then p else AddedAll(ns, busy, p.1, tokens[1..])
  }

  /** The written-out list splits back into the paths of the directories. */
  lemma DirectoryListSplitsBack(ds: seq<Path>)
    requires Listable(ds)
    ensures Tokens(ControlledDirectories(ds), ',') == PathStrings(ds)
    ensures forall i :: 0 <= i < |ds| ==> ParsePath(PathStrings(ds)[i]) == ds[i]
  {
    var xs := PathStrings(ds);
    forall i | 0 <= i < |ds|
      ensures xs[i] != [] && ',' !in xs[i] && ParsePath(xs[i]) == ds[i]
    {
      JoinFree(ds[i], '/', ',');
      ParsePathString(ds[i]);
    }
    TokensOfJoin(xs, ',');
  }

  /** The list only grows, and only by directories it did not hold. */
  lemma {:induction false} AddedAllGrows(ns: Nodes, busy: bool, ds: seq<Path>, tokens: seq<string>)
    ensures var r := AddedAll(ns, busy, ds, tokens);
      ds <= r.1 && (Distinct(ds) ==> Distinct(r.1))
      && (busy ==> r.1 == ds)
    decreases |tokens|
  {
    if tokens != [] {
      var p := Added(ns, busy, ds, ParsePath(tokens[0]));
      if p.0.Ok? {
        AddedAllGrows(ns, busy, p.1, tokens[1..]);
      }
    }
  }

  /** When the whole list is accepted, every token's directory is in it. */
  lemma {:induction false} AddedAllHolds(ns: Nodes, busy: bool, ds: seq<Path>, tokens: seq<string>)
    requires AddedAll(ns, busy, ds, tokens).0.Ok?
    ensures forall k :: 0 <= k < |tokens| ==> ParsePath(tokens[k]) in AddedAll(ns, busy, ds, tokens).1
    decreases |tokens|
  {
    if tokens != [] {
      var p := Added(ns, busy, ds, ParsePath(tokens[0]));
      assert p.0.Ok? && ParsePath(tokens[0]) in p.1;
      var r := AddedAll(ns, busy, p.1, tokens[1..]);
      assert AddedAll(ns, busy, ds, tokens) == r;
      AddedAllHolds(ns, busy, p.1, tokens[1..]);
      AddedAllGrows(ns, busy, p.1, tokens[1..]);
      assert p.1 <= r.1;
      forall k | 0 <= k < |tokens|
        ensures ParsePath(tokens[k]) in AddedAll(ns, busy, ds, tokens).1
      {
        if k > 0 {
          assert tokens[k] == tokens[1..][k - 1];
        }
      }
    }
  }

  lemma {:induction false} ReaddedFrom(ns: Nodes, ds: seq<Path>, k: nat)
    requires Listable(ds) && Distinct(ds) && AllDirectories(ns, ds) && k <= |ds|
    ensures AddedAll(ns, false, ds[..k], PathStrings(ds)[k..]) == (Ok(()), ds)
    decreases |ds| - k
  {
    var xs := PathStrings(ds);
    if k == |ds| {
      assert ds[..k] == ds;
      assert xs[k..] == [];
    } else {
      DirectoryListSplitsBack(ds);
      assert xs[k..][0] == xs[k] && xs[k..][1..] == xs[k + 1..];
      assert ds[k] !in ds[..k];
      assert ds[..k] + [ds[k]] == ds[..k + 1];
      assert AllDirectories(ns, ds[..k + 1]);
      ReaddedFrom(ns, ds, k + 1);
    }
  }

  /** Writing the list out and setting it on a poller with no directories gives the same list back. */
  lemma SetOfGetRoundTrip(ns: Nodes, ds: seq<Path>)
    requires Listable(ds) && Distinct(ds) && AllDirectories(ns, ds)
    ensures AddedAll(ns, false, [], Tokens(ControlledDirectories(ds), ',')) == (Ok(()), ds)
  {
    DirectoryListSplitsBack(ds);
    ReaddedFrom(ns, ds, 0);
    assert ds[..0] == [] && PathStrings(ds)[0..] == PathStrings(ds);
  }

  lemma {:induction false} PresentFrom(ns: Nodes, busy: bool, ds: seq<Path>, tokens: seq<string>)
    requires forall k :: 0 <= k < |tokens| ==> ParsePath(tokens[k]) in ds
    ensures AddedAll(ns, busy, ds, tokens) == (Ok(()), ds)
    decreases |tokens|
  {
    if tokens != [] {
      assert ParsePath(tokens[0]) in ds;
      forall k | 0 <= k < |tokens[1..]|
        ensures ParsePath(tokens[1..][k]) in ds
      {
        assert tokens[1..][k] == tokens[k + 1];
      }
      PresentFrom(ns, busy, ds, tokens[1..]);
    }
  }

  /** Setting the directories the poller already has changes nothing, even while it runs. */
  lemma SetOfCurrentUnchanged(ns: Nodes, busy: bool, ds: seq<Path>)
    requires Listable(ds)
    ensures AddedAll(ns, busy, ds, Tokens(ControlledDirectories(ds), ',')) == (Ok(()), ds)
  {
    DirectoryListSplitsBack(ds);
    PresentFrom(ns, busy, ds, PathStrings(ds));
  }

  // ---------------------------------------------------------- poll managers

  /** An installed poll manager: its identity, whether it is the JMX notifications one, its toString(). */
  datatype PollManagerEntry = PollManagerEntry(id: nat, jmxNotifications: bool, description: string)

  function Ids(ms: seq<PollManagerEntry>): (r: seq<nat>)
    ensures |r| == |ms| && forall i :: 0 <= i < |ms| ==> r[i] == ms[i].id
  {
    seq(|ms|, i requires 0 <= i < |ms| => ms[i].id)
  }

  predicate HasJmx(ms: seq<PollManagerEntry>)
  {
    exists i :: 0 <= i < |ms| && ms[i].jmxNotifications
  }

  predicate AtMostOneJmx(ms: seq<PollManagerEntry>)
  {
    forall i, j :: 0 <= i < j < |ms| && ms[i].jmxNotifications ==> !ms[j].jmxNotifications
  }

  const InternalOnly := "JMXNotificationsPollManager is an internal-use only PollManager"

  /** One line per manager, the JMX notifications manager left out. */
  function Listing(ms: seq<PollManagerEntry>): string
  {
    if ms == [] then ""
    else
      var m := ms[|ms| - 1];
      Listing(ms[..|ms| - 1]) + (if m.jmxNotifications then "" else m.description + "\n")
  }

  /** listInstalledPollManagers */
  function InstalledListing(ms: seq<PollManagerEntry>): string
  {
    if ms == [] then "No poll managers installed" else Listing(ms)
  }

  function Visible(ms: seq<PollManagerEntry>): (r: seq<PollManagerEntry>)
    ensures forall i :: 0 <= i < |r| ==> !r[i].jmxNotifications
  {
    if ms == [] then []
    else Visible(ms[..|ms| - 1]) + (if ms[|ms| - 1].jmxNotifications then [] else [ms[|ms| - 1]])
  }

  function Lines(ms: seq<PollManagerEntry>): string
  {
    if ms == [] then "" else Lines(ms[..|ms| - 1]) + ms[|ms| - 1].description + "\n"
  }

  /** The listing is the descriptions of the managers other than the JMX one, one per line, in the order installed. */
  lemma {:induction false} ListingHidesJmx(ms: seq<PollManagerEntry>)
    ensures Listing(ms) == Lines(Visible(ms))
  {
    if ms != [] {
      var init := ms[..|ms| - 1];
      var m := ms[|ms| - 1];
      ListingHidesJmx(init);
      assert Listing(ms) == Listing(init) + (if m.jmxNotifications then "" else m.description + "\n");
      if !m.jmxNotifications {
        var v := Visible(init) + [m];
        assert Visible(ms) == v;
        assert v[..|v| - 1] == Visible(init) && v[|v| - 1] == m;
        assert Lines(v) == Lines(Visible(init)) + m.description + "\n";
      } else {
        assert Visible(ms) == Visible(init);
      }
    }
  }

  /** With only the JMX notifications manager installed, the listing is empty rather than the "none installed" message. */
  lemma OnlyJmxListsNothing(m: PollManagerEntry)
    requires m.jmxNotifications
    ensures InstalledListing([m]) == "" && InstalledListing([]) == "No poll managers installed"
  {
    assert [m][..0] == [] && [m][0] == m;
    assert Listing([m]) == Listing([]) + "";
  }

  // --------------------------------------------------------- events ordering

  /** The poller's sort comparator as the managed poller sees it: a GenericFileComparator, or some other class. */
  datatype SortComparator = Generic(generic: GenericFileComparator) | ClassComparator(comparator: Comparator)

  function Underlying(o: Option<SortComparator>): Option<Comparator>
  {
    match o
    case None => None
    case Some(Generic(g)) => Some(g.cc)
    case Some(ClassComparator(c)) => Some(c)
  }

  /** getEventsOrdering */
  function EventsOrdering(o: Option<SortComparator>): string
  {
    match o
    case None => "none"
    case Some(Generic(g)) => g.specification
    case Some(ClassComparator(_)) => "by comparator class"
  }

  predicate ClearsOrdering(expr: string)
  {
    var t := Trim(expr);
    t == "-" || ToLower(t) == "none" || t == ""
  }

  predicate KeepsOrdering(expr: string)
  {
    ToLower(Trim(expr)) == "by comparator class"
  }

  /** setEventsOrdering: the ordering afterwards, or the exception the GenericFileComparator constructor throws. */
  function OrderingAfter(expr: string, cur: Option<SortComparator>): Result<Option<SortComparator>>
  {
    if KeepsOrdering(expr) then Ok(cur)
    else if ClearsOrdering(expr) then Ok(None)
    else GenericOrdering(expr)
  }

  /** A GenericFileComparator on the expression, or what its constructor throws. */
  function GenericOrdering(expr: string): (r: Result<Option<SortComparator>>)
    ensures r.Ok? ==> r.value.Some? && r.value.value.Generic? && r.value.value.generic.specification == expr
  {
    match GenericOf(expr)
    case Err(e) => Err(e)
    case Ok(g) => Ok(Some(Generic(g)))
  }

  /** Clearing reads back as "none"; any other accepted expression reads back verbatim; "by comparator class" changes nothing. */
  lemma OrderingReadsBack(expr: string, cur: Option<SortComparator>)
    requires OrderingAfter(expr, cur).Ok?
    ensures KeepsOrdering(expr) ==> OrderingAfter(expr, cur).value == cur
    ensures !KeepsOrdering(expr) && ClearsOrdering(expr) ==> EventsOrdering(OrderingAfter(expr, cur).value) == "none"
    ensures !KeepsOrdering(expr) && !ClearsOrdering(expr) ==> EventsOrdering(OrderingAfter(expr, cur).value) == expr
  {
  }

  /** Setting the ordering that is read back leaves no comparator and a class comparator as they are. */
  lemma OrderingOfReadingKept(cur: Option<SortComparator>)
    requires cur.None? || cur.value.ClassComparator?
    ensures OrderingAfter(EventsOrdering(cur), cur) == Ok(cur)
  {
    if cur.None? {
      assert EventsOrdering(cur) == "none";
      NoneClears();
    } else {
      assert EventsOrdering(cur) == "by comparator class";
      ClassNameKeeps();
    }
  }

  lemma NoneClears()
    ensures !KeepsOrdering("none") && ClearsOrdering("none")
  {
    var s := "none";
    TrimKeeps(s);
    assert IsLower(s);
    LowerKeeps(s);
    assert ToLower(Trim(s)) == s;
  }

  lemma ClassNameKeeps()
    ensures KeepsOrdering("by comparator class")
  {
    var s := "by comparator class";
    TrimKeeps(s);
    assert IsLower(s);
    LowerKeeps(s);
    assert ToLower(Trim(s)) == s;
  }

  // ------------------------------------------------------------ the poller

  /** The pattern a filter carries: that of a RegexpFilenameFilter, otherwise null. */
  function PatternOf(f: Filter): Option<string>
  {
    if f.Plain? && f.nameFilter.RegexpFilenameFilter? then Some(f.nameFilter.pattern) else None
  }

  const AlreadyRunning := RuntimeException("The directory poller is already running")

  class ManagedDirectoryPoller {
    /** The DirectoryPoller this one extends. */
    const poller: DirectoryPoller
    /** managedThread != null */
    var managedThread: bool
    /** managedThread.isAlive() */
    var managedThreadAlive: bool
    var usingJMXTimer: bool
    var jmxTimerObjectName: Option<string>
    var isListeningToTimingEvents: bool
    var filenameFilterFactoryClass: Option<string>
    var currentPattern: Option<string>
    var ordering: Option<SortComparator>
    var managers: seq<PollManagerEntry>

    ghost predicate Valid()
      reads this, poller
    {
      poller.Valid() && poller.pollManagers == Ids(managers) && AtMostOneJmx(managers)
      && poller.filesSortComparator == Underlying(ordering)
      && jmxTimerObjectName != Some("")
    }

    constructor (poller: DirectoryPoller)
      requires poller.Valid() && poller.pollManagers == [] && poller.filesSortComparator.None?
      ensures Valid() && this.poller == poller
      ensures !managedThread && !managedThreadAlive && !usingJMXTimer && jmxTimerObjectName.None?
      ensures !isListeningToTimingEvents && filenameFilterFactoryClass.None? && currentPattern.None?
      ensures ordering.None? && managers == []
    {
      this.poller := poller;
      managedThread := false;
      managedThreadAlive := false;
      usingJMXTimer := false;
      jmxTimerObjectName := None;
      isListeningToTimingEvents := false;
      filenameFilterFactoryClass := None;
      currentPattern := None;
      ordering := None;
      managers := [];
    }

    /** The managed thread ending or being seen alive, as its lifecycle decides. */
    method SetManagedThreadAlive(v: bool)
      modifies this`managedThreadAlive
      ensures managedThreadAlive == v
    {
      managedThreadAlive := v;
    }

    /** isRunning: never without a managed thread; with a JMX timer, whether timing events are listened to. */
    predicate IsRunning()
      reads this
      ensures IsRunning() ==> managedThread
      ensures managedThread && usingJMXTimer ==> (IsRunning() <==> isListeningToTimingEvents)
      ensures managedThread && !usingJMXTimer ==> (IsRunning() <==> managedThreadAlive)
    {
      if !managedThread then false
      else if usingJMXTimer then isListeningToTimingEvents
      else managedThreadAlive
    }

    /**
     * startUp: refused with no directories or with a managed thread
     * already there; with a JMX timer it only starts listening, otherwise
     * it starts the managed thread.
     */
    method StartUp() returns (r: Result<()>)
      modifies this`managedThread, this`managedThreadAlive, this`isListeningToTimingEvents
      ensures r.Ok? <==> |poller.dirs| > 0 && !old(managedThread)
      ensures r.Err? ==> r == Err(IllegalStateException) && unchanged(this)
      ensures r.Ok? && usingJMXTimer ==>
        isListeningToTimingEvents && !managedThread && managedThreadAlive == old(managedThreadAlive)
      ensures r.Ok? && !usingJMXTimer ==>
        managedThread && managedThreadAlive && isListeningToTimingEvents == old(isListeningToTimingEvents)
      ensures usingJMXTimer ==> IsRunning() == old(IsRunning())
    {
      if |poller.dirs| == 0 {
        return Err(IllegalStateException);
      }
      if managedThread {
        return Err(IllegalStateException);
      }
      if usingJMXTimer {
        isListeningToTimingEvents := true;
      } else {
        managedThread := true;
        managedThreadAlive := true;
      }
      r := Ok(());
    }

    /** shutDown: with a JMX timer it stops listening; otherwise it needs a managed thread, shuts the poller down and drops the thread. */
    method ShutDown() returns (r: Result<()>)
      modifies this`managedThread, this`isListeningToTimingEvents, poller`shutdownRequested
      ensures usingJMXTimer ==>
        r == Ok(()) && !isListeningToTimingEvents && managedThread == old(managedThread)
        && poller.shutdownRequested == old(poller.shutdownRequested)
      ensures !usingJMXTimer && !old(managedThread) ==> r == Err(IllegalStateException) && unchanged(this, poller)
      ensures !usingJMXTimer && old(managedThread) ==>
        r == Ok(()) && !managedThread && poller.shutdownRequested
        && isListeningToTimingEvents == old(isListeningToTimingEvents)
      ensures r.Ok? ==> !IsRunning()
    {
      if usingJMXTimer {
        isListeningToTimingEvents := false;
        return Ok(());
      }
      if !managedThread {
        return Err(IllegalStateException);
      }
      poller.Shutdown();
      managedThread := false;
      r := Ok(());
    }

    /** setUsingJMXTimer: refused only when turning it off, or keeping it off, while the poller thread is alive. */
    method SetUsingJMXTimer(v: bool) returns (r: Result<()>)
      modifies this`usingJMXTimer
      ensures !old(usingJMXTimer) && !v && poller.alive ==> r == Err(IllegalStateException) && usingJMXTimer == old(usingJMXTimer)
      ensures !(!old(usingJMXTimer) && !v && poller.alive) ==> r == Ok(()) && usingJMXTimer == v
    {
      if !usingJMXTimer && !v && poller.alive {
        return Err(IllegalStateException);
      }
      usingJMXTimer := v;
      r := Ok(());
    }

    function GetJMXTimerObjectName(): (r: string)
      reads this
      ensures r != "" ==> jmxTimerObjectName == Some(r)
      ensures r == "" <==> jmxTimerObjectName.None? || jmxTimerObjectName == Some("")
    {
      jmxTimerObjectName.GetOr("")
    }

    /** setJMXTimerObjectName: an empty name is kept as null, which reads back as the empty name. */
    method SetJMXTimerObjectName(name: Option<string>)
      requires Valid()
      modifies this`jmxTimerObjectName
      ensures Valid()
      ensures jmxTimerObjectName == (if name == Some("") then None else name)
      ensures GetJMXTimerObjectName() == name.GetOr("")
    {
      if name == Some("") {
        jmxTimerObjectName := None;
      } else {
        jmxTimerObjectName := name;
      }
    }

    method GetControlledDirectories() returns (s: string)
      ensures s == ControlledDirectories(poller.dirs)
    {
      var ds := poller.dirs;
      s := "";
      var i := 0;
      while i < |ds|
        invariant 0 <= i <= |ds|
        invariant s == Join(PathStrings(ds)[..i], ',') + (if 0 < i < |ds| then "," else "")
      {
        ghost var xs := PathStrings(ds)[..i];
        assert PathStrings(ds)[..i + 1] == xs + [PathString(ds[i])];
        if i > 0 {
          JoinSnoc(xs, PathString(ds[i]), ',');
        } else {
          assert xs == [];
        }
        s := s + PathString(ds[i]);
        if i < |ds| - 1 {
          s := s + ",";
        }
        i := i + 1;
      }
      assert PathStrings(ds)[..i] == PathStrings(ds);
    }

    /** countControlledDirectories: as many as getControlledDirectories lists paths. */
    function CountControlledDirectories(): (n: nat)
      reads this, poller
      ensures n == |PathStrings(poller.dirs)|
    {
      |poller.dirs|
    }

    /** getControlledDirectory: the path of the i-th directory, refused outside [0, count). */
    method GetControlledDirectory(i: int) returns (r: Result<string>)
      ensures r.Ok? <==> 0 <= i < |poller.dirs|
      ensures r.Ok? ==> r.value == PathString(poller.dirs[i])
      ensures r.Err? ==> r.error == IllegalArgumentException
    {
      if i < 0 || i >= |poller.dirs| {
        return Err(IllegalArgumentException);
      }
      r := Ok(PathString(poller.dirs[i]));
    }

    /** addControlledDirectory */
    method AddControlledDirectory(dir: string) returns (r: Result<()>)
      requires Valid()
      modifies poller
      ensures Valid()
      ensures (r, poller.dirs) == Added(poller.fs.nodes, old(poller.alive && !poller.sleeping), old(poller.dirs), ParsePath(dir))
      ensures poller.alive == old(poller.alive) && poller.sleeping == old(poller.sleeping)
      ensures poller.fs.nodes == old(poller.fs.nodes)
      ensures poller.Config().(dirs := old(poller.dirs)) == old(poller.Config()) && poller.Rest() == old(poller.Rest())
      ensures poller.Snapshot().(baseTime := old(poller.baseTime)) == old(poller.Snapshot())
      ensures poller.baseTime == if poller.dirs == old(poller.dirs) then old(poller.baseTime) else seq(|poller.dirs|, _ => 0)
    {
      r := poller.AddDirectory(ParsePath(dir));
    }

    /** removeControlledDirectory */
    method RemoveControlledDirectory(dir: string) returns (r: Result<()>)
      requires Valid()
      modifies poller
      ensures Valid()
      ensures PollerDirectories.WithoutDirectory(old(poller.dirs), ParsePath(dir)).Err? ==>
        r == Err(PollerDirectories.WithoutDirectory(old(poller.dirs), ParsePath(dir)).error) && poller.dirs == old(poller.dirs)
      ensures PollerDirectories.Occurrences(old(poller.dirs), ParsePath(dir)) >= 1 && old(poller.alive && !poller.sleeping) ==>
        r == Err(IllegalStateException) && poller.dirs == old(poller.dirs)
      ensures PollerDirectories.Occurrences(old(poller.dirs), ParsePath(dir)) == 1 && !old(poller.alive && !poller.sleeping) ==>
        var others := PollerDirectories.Others(old(poller.dirs), ParsePath(dir));
        if forall i :: 0 <= i < |others| ==> IsDirectory(poller.fs.nodes, others[i])
        then r == Ok(()) && poller.dirs == others
        else r == Err(IllegalArgumentException) && poller.dirs == old(poller.dirs)
      ensures PollerDirectories.Occurrences(old(poller.dirs), ParsePath(dir)) >= 2 && !old(poller.alive && !poller.sleeping) ==>
        var others := PollerDirectories.Others(old(poller.dirs), ParsePath(dir));
        poller.dirs == old(poller.dirs)
        && r == Err(if forall i :: 0 <= i < |others| ==> IsDirectory(poller.fs.nodes, others[i]) then NullPointerException else IllegalArgumentException)
      ensures poller.alive == old(poller.alive) && poller.sleeping == old(poller.sleeping)
      ensures poller.fs.nodes == old(poller.fs.nodes)
      ensures poller.Config().(dirs := old(poller.dirs)) == old(poller.Config()) && poller.Rest() == old(poller.Rest())
      ensures poller.Snapshot().(baseTime := old(poller.baseTime)) == old(poller.Snapshot())
      ensures poller.baseTime == if poller.dirs == old(poller.dirs) then old(poller.baseTime) else seq(|poller.dirs|, _ => 0)
    {
      r := poller.RemoveDirectory(ParsePath(dir));
    }

    /**
     * Since the poller stood at c0 and s0, only its directories and base
     * times have changed: the list has only grown, and once it grew every
     * base time started again at 0.
     */
    ghost predicate DirectoriesGrown(c0: PollerCycle.Settings, s0: PollerCycle.State)
      reads poller, poller.fs
    {
      poller.Config().(dirs := c0.dirs) == c0
      && poller.Snapshot().(baseTime := s0.baseTime) == s0
      && |poller.dirs| >= |c0.dirs| && (|poller.dirs| == |c0.dirs| ==> poller.dirs == c0.dirs)
      && poller.baseTime == if poller.dirs == c0.dirs then s0.baseTime else seq(|poller.dirs|, _ => 0)
    }

    /** One token of setControlledDirectories: addControlledDirectory, keeping DirectoriesGrown. */
    method AddListedDirectory(dir: string, ghost c0: PollerCycle.Settings, ghost s0: PollerCycle.State) returns (r: Result<()>)
      requires Valid() && DirectoriesGrown(c0, s0)
      modifies poller
      ensures Valid() && DirectoriesGrown(c0, s0)
      ensures (r, poller.dirs) == Added(poller.fs.nodes, old(poller.alive && !poller.sleeping), old(poller.dirs), ParsePath(dir))
      ensures poller.alive == old(poller.alive) && poller.sleeping == old(poller.sleeping)
      ensures poller.fs.nodes == old(poller.fs.nodes) && poller.Rest() == old(poller.Rest())
    {
      r := AddControlledDirectory(dir);
    }

    /** setControlledDirectories: every non-empty comma-separated token added in turn. */
    method SetControlledDirectories(dirList: string) returns (r: Result<()>)
      requires Valid()
      modifies poller
      ensures Valid()
      ensures (r, poller.dirs) == AddedAll(poller.fs.nodes, old(poller.alive && !poller.sleeping), old(poller.dirs), Tokens(dirList, ','))
      ensures poller.alive == old(poller.alive) && poller.sleeping == old(poller.sleeping)
      ensures poller.fs.nodes == old(poller.fs.nodes)
      ensures DirectoriesGrown(old(poller.Config()), old(poller.Snapshot())) && poller.Rest() == old(poller.Rest())
    {
      var tokens := Tokens(dirList, ',');
      ghost var busy := poller.alive && !poller.sleeping;
      ghost var ns := poller.fs.nodes;
      ghost var start := poller.dirs;
      ghost var c0 := poller.Config();
      ghost var s0 := poller.Snapshot();
      var k := 0;
      while k < |tokens|
        invariant 0 <= k <= |tokens| && Valid()
        invariant DirectoriesGrown(c0, s0) && poller.Rest() == old(poller.Rest())
        invariant AddedAll(ns, busy, start, tokens) == AddedAll(ns, busy, poller.dirs, tokens[k..])
      {
        assert tokens[k..][0] == tokens[k] && tokens[k..][1..] == tokens[k + 1..];
        var added := AddListedDirectory(tokens[k], c0, s0);
        if added.Err? {
          return added;
        }
        k := k + 1;
      }
      r := Ok(());
    }

    /** addPollManager: a second JMX notifications manager is refused; any other joins the poller's list. */
    method AddPollManager(pm: PollManagerEntry) returns (r: Result<()>)
      requires Valid()
      modifies this`managers, poller`pollManagers
      ensures Valid()
      ensures r == (if pm.jmxNotifications && HasJmx(old(managers)) then Err(RuntimeException(InternalOnly)) else Ok(()))
      ensures r.Ok? ==> managers == old(managers) + [pm]
      ensures r.Err? ==> managers == old(managers)
    {
      if pm.jmxNotifications {
        var i := 0;
        while i < |managers|
          invariant 0 <= i <= |managers|
          invariant forall j :: 0 <= j < i ==> !managers[j].jmxNotifications
        {
          if managers[i].jmxNotifications {
            return Err(RuntimeException(InternalOnly));
          }
          i := i + 1;
        }
      }
      poller.AddPollManager(pm.id);
      managers := managers + [pm];
      assert Ids(managers) == Ids(old(managers)) + [pm.id];
      r := Ok(());
    }

    method ListInstalledPollManagers() returns (s: string)
      ensures s == InstalledListing(managers)
    {
      if |managers| == 0 {
        return "No poll managers installed";
      }
      s := "";
      var i := 0;
      while i < |managers|
        invariant 0 <= i <= |managers|
        invariant s == Listing(managers[..i])
      {
        assert managers[..i + 1][..i] == managers[..i];
        if !managers[i].jmxNotifications {
          s := s + managers[i].description + "\n";
        }
        i := i + 1;
      }
      assert managers[..i] == managers;
    }

    /** setFilter: the pattern is taken from a RegexpFilenameFilter before the poller is asked to switch filters. */
    method SetFilter(f: Filter) returns (r: Result<()>)
      modifies this`currentPattern, poller`filter
      ensures currentPattern == PatternOf(f)
      ensures poller.alive ==> r == Err(IllegalStateException) && poller.filter == old(poller.filter)
      ensures !poller.alive ==> r == Ok(()) && poller.filter == f
    {
      currentPattern := PatternOf(f);
      r := poller.SetFilter(f);
    }

    /**
     * setFilenameFilterFactoryClass, with the filter the factory creates
     * given as `created`: refused while running; null changes nothing; the
     * empty name puts back the null filter and forgets the factory.
     */
    method SetFilenameFilterFactoryClass(name: Option<string>, created: NameFilter) returns (r: Result<()>)
      modifies this`currentPattern, this`filenameFilterFactoryClass, poller`filter
      ensures old(IsRunning()) ==> r == Err(AlreadyRunning) && unchanged(this, poller)
      ensures !old(IsRunning()) && name.None? ==> r == Ok(()) && unchanged(this, poller)
      ensures !old(IsRunning()) && name == Some("") ==>
        currentPattern.None?
        && (poller.alive ==> r == Err(IllegalStateException) && filenameFilterFactoryClass == old(filenameFilterFactoryClass) && poller.filter == old(poller.filter))
        && (!poller.alive ==> r == Ok(()) && filenameFilterFactoryClass.None? && poller.filter == Plain(NullFilenameFilter))
      ensures !old(IsRunning()) && name.Some? && name != Some("") ==>
        filenameFilterFactoryClass == name && currentPattern == PatternOf(Plain(created))
        && (poller.alive ==> r == Err(IllegalStateException) && poller.filter == old(poller.filter))
        && (!poller.alive ==> r == Ok(()) && poller.filter == Plain(created))
    {
      if IsRunning() {
        return Err(AlreadyRunning);
      }
      if name.None? {
        return Ok(());
      }
      if name.value == "" {
        r := SetFilter(Plain(NullFilenameFilter));
        if r.Err? {
          return;
        }
        filenameFilterFactoryClass := None;
        return;
      }
      filenameFilterFactoryClass := name;
      r := SetFilter(Plain(created));
    }

    function GetAcceptedFilenamePattern(): (r: string)
      reads this
      ensures currentPattern.Some? ==> r == currentPattern.value
      ensures currentPattern.None? ==> r == ""
    {
      currentPattern.GetOr("")
    }

    /**
     * setAcceptedFilenamePattern: a filter factory in place is first
     * dropped (unless the pattern is empty); the empty pattern installs the
     * null filter, any other a RegexpFilenameFilter.
     */
    method SetAcceptedFilenamePattern(p: string) returns (r: Result<()>)
      modifies this`currentPattern, this`filenameFilterFactoryClass, poller`filter
      ensures old(filenameFilterFactoryClass).None? || p == "" ==>
        GetAcceptedFilenamePattern() == p && filenameFilterFactoryClass == old(filenameFilterFactoryClass)
      ensures r.Ok? <==> !poller.alive && !(old(filenameFilterFactoryClass).Some? && p != "" && old(IsRunning()))
      ensures r.Ok? ==>
        GetAcceptedFilenamePattern() == p
        && poller.filter == Plain(if p == "" then NullFilenameFilter else RegexpFilenameFilter(p))
        && (p != "" ==> filenameFilterFactoryClass.None?)
      ensures old(filenameFilterFactoryClass).Some? && p != "" && old(IsRunning()) ==>
        r == Err(AlreadyRunning) && unchanged(this, poller)
      ensures old(filenameFilterFactoryClass).Some? && p != "" && !old(IsRunning()) && poller.alive ==>
        r == Err(IllegalStateException) && currentPattern.None?
        && filenameFilterFactoryClass == old(filenameFilterFactoryClass) && poller.filter == old(poller.filter)
      ensures (old(filenameFilterFactoryClass).None? || p == "") && poller.alive ==>
        r == Err(IllegalStateException) && poller.filter == old(poller.filter)
    {
      if filenameFilterFactoryClass.Some? && p != "" {
        r := SetFilenameFilterFactoryClass(Some(""), NullFilenameFilter);
        if r.Err? {
          return;
        }
      }
      if p == "" {
        r := SetFilter(Plain(NullFilenameFilter));
      } else {
        r := SetFilter(Plain(RegexpFilenameFilter(p)));
      }
    }

    /** setFilesSortComparator */
    method SetFilesSortComparator(c: Option<SortComparator>)
      requires Valid()
      modifies this`ordering, poller`filesSortComparator
      ensures Valid() && ordering == c
    {
      ordering := c;
      poller.SetFilesSortComparator(Underlying(c));
    }

    function GetEventsOrdering(): (r: string)
      reads this
      ensures ordering.None? ==> r == "none"
      ensures ordering.Some? && ordering.value.Generic? ==> r == ordering.value.generic.specification
      ensures ordering.Some? && ordering.value.ClassComparator? ==> r == "by comparator class"
    {
      EventsOrdering(ordering)
    }

    /** setEventsOrdering */
    method SetEventsOrdering(expr: string) returns (r: Result<()>)
      requires Valid()
      modifies this`ordering, poller`filesSortComparator
      ensures Valid()
      ensures match OrderingAfter(expr, old(ordering))
        case Err(e) => r == Err(e) && ordering == old(ordering)
        case Ok(o) => r == Ok(()) && ordering == o
    {
      var t := Trim(expr);
      if ToLower(t) == "by comparator class" {
        return Ok(());
      }
      if t == "-" || ToLower(t) == "none" || t == "" {
        SetFilesSortComparator(None);
        return Ok(());
      }
      var g := NewGenericFileComparator(expr);
      if g.Err? {
        return Err(g.error);
      }
      SetFilesSortComparator(Some(Generic(g.value)));
      r := Ok(());
    }
  }
}

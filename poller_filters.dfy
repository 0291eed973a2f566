// The filename filters a DirectoryPoller lists its directories through:
// the user's filter, the directory filter wrapped around it at
// construction, and the time filter wrapped around that in time-based
// mode.

module PollerFilters {
  import opened Text
  import opened Files

  /** A java.io.FilenameFilter supplied from outside the poller. */
  datatype NameFilter =
    | NullFilenameFilter
    | RegexpFilenameFilter(pattern: string)
    /** A filter of the application's own (or made by a filter factory), told apart by an identity. */
    | CustomFilter(id: nat)

  /**
   * What a regular expression and a custom filter answer: regular-expression
   * matching and foreign code are not part of this model.
   */
  datatype FilterOracle = FilterOracle(
    matches: (string, string) -> bool,
    custom: (nat, Path, string) -> bool)

  function NameAccepts(o: FilterOracle, f: NameFilter, dir: Path, name: string): bool
  {
    match f
    case NullFilenameFilter => true
    case RegexpFilenameFilter(pattern) => o.matches(pattern, name)
    case CustomFilter(id) => o.custom(id, dir, name)
  }

  /** The poller's `filter` field. */
  datatype Filter =
    /** A null filter: listFiles keeps every name. */
    | NoFilter
    | Plain(nameFilter: NameFilter)
    | DirectoryFilter(systemDirectoryNames: seq<string>, additional: Option<NameFilter>)
    | TimeFilter(timeAdditional: Filter)

  /**
   * Arrays.binarySearch over a[low..high]: the index of key, or
   * -(insertion point) - 1. The midpoint is (low + high) >>> 1, which for
   * array indices is the halved sum.
   */
  function BinarySearchFrom(a: seq<string>, key: string, low: int, high: int): (r: int)
    requires 0 <= low <= high + 1 <= |a|
    ensures r >= 0 ==> low <= r <= high && a[r] == key
    decreases high - low
  {
    if low > high then -(low + 1)
    else
      var mid := (low + high) / 2;
      var cmp := CompareTo(a[mid], key);
      if cmp < 0 then BinarySearchFrom(a, key, mid + 1, high)
      else if cmp > 0 then BinarySearchFrom(a, key, low, mid - 1)
      else CompareToZeroIffEqual(a[mid], key); mid
  }

  function BinarySearch(a: seq<string>, key: string): (r: int)
    ensures r >= 0 ==> r < |a| && a[r] == key
  {
    BinarySearchFrom(a, key, 0, |a| - 1)
  }

  /** A miss answers -(insertion point) - 1, the insertion point lying in the range or just past it. */
  lemma {:induction false} BinarySearchMissBounds(a: seq<string>, key: string, low: int, high: int)
    requires 0 <= low <= high + 1 <= |a|
    ensures var r := BinarySearchFrom(a, key, low, high);
      r < 0 ==> low + 1 <= -r <= high + 2
    decreases high - low
  {
    if low <= high {
      var mid := (low + high) / 2;
      var cmp := CompareTo(a[mid], key);
      if cmp < 0 {
        BinarySearchMissBounds(a, key, mid + 1, high);
      } else if cmp > 0 {
        BinarySearchMissBounds(a, key, low, mid - 1);
      }
    }
  }

  /** Sorted by String.compareTo with no name twice, as binarySearch expects. */
  predicate StrictlySorted(a: seq<string>)
  {
    forall i, j :: 0 <= i < j < |a| ==> CompareTo(a[i], a[j]) < 0
  }

  /** In a strictly sorted range, the search finds each element at its own index. */
  lemma {:induction false} BinarySearchFinds(a: seq<string>, k: int, low: int, high: int)
    requires StrictlySorted(a)
    requires 0 <= low <= k <= high < |a|
    ensures BinarySearchFrom(a, a[k], low, high) == k
    decreases high - low
  {
    var mid := (low + high) / 2;
    if mid < k {
      assert CompareTo(a[mid], a[k]) < 0;
      BinarySearchFinds(a, k, mid + 1, high);
    } else if mid > k {
      assert CompareTo(a[k], a[mid]) < 0;
      CompareToAntisymmetric(a[k], a[mid]);
      BinarySearchFinds(a, k, low, mid - 1);
    } else {
      CompareToZeroIffEqual(a[mid], a[k]);
    }
  }

  /** A name not in the array is never found. */
  lemma BinarySearchMisses(a: seq<string>, key: string)
    requires key !in a
    ensures BinarySearch(a, key) < 0
  {
  }

  /**
   * The test DirectoryFilter applies to a directory: rejected when there are
   * no system names at all, or when binarySearch answers above 0.
   */
  predicate RejectedAsSystemDirectory(systemNames: seq<string>, name: string)
  {
    |systemNames| == 0 || BinarySearch(systemNames, name) > 0
  }

  /**
   * With a sorted, non-empty list of system names, a directory is rejected
   * exactly when its name is one of them but not the first: the test
   * `> 0` lets the first system name through.
   */
  lemma SystemDirectoryTest(systemNames: seq<string>, name: string)
    requires systemNames != [] && StrictlySorted(systemNames)
    ensures RejectedAsSystemDirectory(systemNames, name) <==> name in systemNames[1..]
  {
    if name in systemNames {
      var k :| 0 <= k < |systemNames| && systemNames[k] == name;
      BinarySearchFinds(systemNames, k, 0, |systemNames| - 1);
      if k == 0 {
        forall j | 0 < j < |systemNames|
          ensures systemNames[j] != name
        {
          CompareToZeroIffEqual(systemNames[0], systemNames[j]);
        }
      } else {
        assert systemNames[1..][k - 1] == name;
      }
    } else {
      BinarySearchMisses(systemNames, name);
    }
  }

  /** FilenameFilter.accept of the poller's filter for one listed name. */
  function Accepts(o: FilterOracle, f: Filter, ns: Nodes, baseTime: int, dir: Path, name: string): (r: bool)
    ensures f.NoFilter? ==> r
    ensures f.TimeFilter? && r ==>
      !IsDirectory(ns, Child(dir, name)) && LastModified(ns, Child(dir, name)) > baseTime
    ensures f.DirectoryFilter? && r && IsDirectory(ns, Child(dir, name)) ==>
      !RejectedAsSystemDirectory(f.systemDirectoryNames, name)
    ensures f.DirectoryFilter? && !IsDirectory(ns, Child(dir, name)) && f.additional.None? ==> r
  {
    var p := Child(dir, name);
    match f
    case NoFilter => true
    case Plain(nf) => NameAccepts(o, nf, dir, name)
    case DirectoryFilter(sys, add) =>
      if IsDirectory(ns, p) && RejectedAsSystemDirectory(sys, name) then false
      else add.None? || NameAccepts(o, add.value, dir, name)
    case TimeFilter(add) =>
      if IsDirectory(ns, p) then false
      else if LastModified(ns, p) <= baseTime then false
      else Accepts(o, add, ns, baseTime, dir, name)
  }

  /** Without system names, the directory filter rejects every subdirectory. */
  lemma NoSystemNamesRejectsAllDirectories(o: FilterOracle, add: Option<NameFilter>, ns: Nodes, base: int, dir: Path, name: string)
    requires IsDirectory(ns, Child(dir, name))
    ensures !Accepts(o, DirectoryFilter([], add), ns, base, dir, name)
  {
  }

  /** The directory filter defers to the user's filter on every regular file. */
  lemma DirectoryFilterPassesFiles(o: FilterOracle, sys: seq<string>, nf: NameFilter, ns: Nodes, base: int, dir: Path, name: string)
    requires !IsDirectory(ns, Child(dir, name))
    ensures Accepts(o, DirectoryFilter(sys, Some(nf)), ns, base, dir, name) == NameAccepts(o, nf, dir, name)
  {
  }

  /** listFiles(filter) of a directory: the listed names the filter accepts, in listing order. */
  function Selected(o: FilterOracle, f: Filter, ns: Nodes, base: int, dir: Path, names: seq<string>): (r: seq<string>)
    ensures |r| <= |names|
    ensures forall i :: 0 <= i < |r| ==> r[i] in names && Accepts(o, f, ns, base, dir, r[i])
  {
    if names == [] then []
    else
      var rest := Selected(o, f, ns, base, dir, names[..|names| - 1]);
      if Accepts(o, f, ns, base, dir, names[|names| - 1]) then rest + [names[|names| - 1]] else rest
  }

  /** Every accepted name is kept. */
  lemma {:induction false} SelectedKeepsAccepted(o: FilterOracle, f: Filter, ns: Nodes, base: int, dir: Path, names: seq<string>, n: string)
    requires n in names && Accepts(o, f, ns, base, dir, n)
    ensures n in Selected(o, f, ns, base, dir, names)
  {
    var init := names[..|names| - 1];
    if n != names[|names| - 1] {
      assert n in init by {
        var k :| 0 <= k < |names| && names[k] == n;
        assert init[k] == n;
      }
      SelectedKeepsAccepted(o, f, ns, base, dir, init, n);
    }
  }

  /**
   * In time-based mode the listing holds no directory and no file that is
   * not newer than the directory's base time.
   */
  lemma TimeFilteredListing(o: FilterOracle, inner: Filter, ns: Nodes, base: int, dir: Path, names: seq<string>)
    ensures var r := Selected(o, TimeFilter(inner), ns, base, dir, names);
      forall i :: 0 <= i < |r| ==>
        !IsDirectory(ns, Child(dir, r[i])) && LastModified(ns, Child(dir, r[i])) > base
  {
  }
}

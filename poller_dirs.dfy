// The directory list of a DirectoryPoller: validating a new list,
// removing one entry with the array copy the poller uses, and finding the
// index of a directory for its base time.

module PollerDirectories {
  import opened Text
  import opened Files
  import opened Outcomes

  /**
   * The check setDirectories runs over a new list, first entry first: a
   * null entry fails with a NullPointerException, one that is not a
   * directory with an IllegalArgumentException.
   */
  function CheckedDirectories(ns: Nodes, ds: seq<Option<Path>>): (r: Result<seq<Path>>)
    ensures r.Ok? ==> |r.value| == |ds| && forall i :: 0 <= i < |ds| ==> ds[i] == Some(r.value[i]) && IsDirectory(ns, r.value[i])
  {
    if ds == [] then Ok([])
    else if ds[0].None? then Err(NullPointerException)
    else if !IsDirectory(ns, ds[0].value) then Err(IllegalArgumentException)
    else
      match CheckedDirectories(ns, ds[1..])
      case Err(e) => Err(e)
      case Ok(rest) => Ok([ds[0].value] + rest)
  }

  function Unwrapped(ds: seq<Option<Path>>): (r: seq<Path>)
    requires forall i :: 0 <= i < |ds| ==> ds[i].Some?
    ensures |r| == |ds| && forall i :: 0 <= i < |ds| ==> ds[i] == Some(r[i])
  {
    if ds == [] then [] else [ds[0].value] + Unwrapped(ds[1..])
  }

  function Wrapped(ds: seq<Path>): (r: seq<Option<Path>>)
    ensures |r| == |ds| && forall i :: 0 <= i < |ds| ==> r[i] == Some(ds[i])
  {
    seq(|ds|, i requires 0 <= i < |ds| => Some(ds[i]))
  }

  /** A list of good entries is accepted as it is; otherwise the first bad entry decides the exception. */
  lemma {:induction false} CheckedDirectoriesCases(ns: Nodes, ds: seq<Option<Path>>, k: nat)
    requires k <= |ds| && forall i :: 0 <= i < k ==> ds[i].Some? && IsDirectory(ns, ds[i].value)
    ensures k == |ds| ==> CheckedDirectories(ns, ds) == Ok(Unwrapped(ds))
    ensures k < |ds| && ds[k].None? ==> CheckedDirectories(ns, ds) == Err(NullPointerException)
    ensures k < |ds| && ds[k].Some? && !IsDirectory(ns, ds[k].value) ==> CheckedDirectories(ns, ds) == Err(IllegalArgumentException)
  {
    if ds != [] && k > 0 {
      CheckedDirectoriesCases(ns, ds[1..], k - 1);
    }
  }

  /** A list of paths is accepted as it stands exactly when every path is a directory. */
  lemma {:induction false} CheckedWrapped(ns: Nodes, ds: seq<Path>)
    ensures CheckedDirectories(ns, Wrapped(ds)) ==
      if forall i :: 0 <= i < |ds| ==> IsDirectory(ns, ds[i]) then Ok(ds) else Err(IllegalArgumentException)
  {
    if ds != [] {
      CheckedWrapped(ns, ds[1..]);
      assert Wrapped(ds)[1..] == Wrapped(ds[1..]);
      assert [ds[0]] + ds[1..] == ds;
      if IsDirectory(ns, ds[0]) && !(forall i :: 0 <= i < |ds| ==> IsDirectory(ns, ds[i])) {
        var i :| 0 <= i < |ds| && !IsDirectory(ns, ds[i]);
        assert ds[1..][i - 1] == ds[i];
      }
    }
  }

  /** The validation loop of setDirectories. */
  method ValidateDirectories(ns: Nodes, ds: seq<Option<Path>>) returns (r: Result<seq<Path>>)
    ensures r == CheckedDirectories(ns, ds)
  {
    var i := 0;
    while i < |ds|
      invariant 0 <= i <= |ds|
      invariant forall k :: 0 <= k < i ==> ds[k].Some? && IsDirectory(ns, ds[k].value)
    {
      if ds[i].None? {
        CheckedDirectoriesCases(ns, ds, i);
        return Err(NullPointerException);
      }
      if !IsDirectory(ns, ds[i].value) {
        CheckedDirectoriesCases(ns, ds, i);
        return Err(IllegalArgumentException);
      }
      i := i + 1;
    }
    CheckedDirectoriesCases(ns, ds, i);
    r := Ok(Unwrapped(ds));
  }

  /** The entries other than dir, in order. */
  function Others(ds: seq<Path>, dir: Path): (r: seq<Path>)
    ensures |r| <= |ds| && dir !in r
    ensures forall p :: p in r <==> p in ds && p != dir
  {
    if ds == [] then []
    else Others(ds[..|ds| - 1], dir) + (if ds[|ds| - 1] == dir then [] else [ds[|ds| - 1]])
  }

  function Occurrences(ds: seq<Path>, dir: Path): (n: nat)
    ensures n == 0 <==> dir !in ds
  {
    if ds == [] then 0
    else Occurrences(ds[..|ds| - 1], dir) + (if ds[|ds| - 1] == dir then 1 else 0)
  }

  lemma {:induction false} OthersAndOccurrences(ds: seq<Path>, dir: Path)
    ensures |Others(ds, dir)| + Occurrences(ds, dir) == |ds|
  {
    if ds != [] {
      OthersAndOccurrences(ds[..|ds| - 1], dir);
    }
  }

  /**
   * What the array copy of removeDirectory yields: an array one shorter
   * holding the other entries and a null slot for each extra occurrence;
   * an empty list cannot give an array of length -1, and a missing entry
   * overruns the array at its last element.
   */
  function WithoutDirectory(ds: seq<Path>, dir: Path): Result<seq<Option<Path>>>
  {
    if |ds| == 0 then Err(NegativeArraySizeException)
    else if dir !in ds then Err(ArrayIndexOutOfBoundsException)
    else Ok(Wrapped(Others(ds, dir)) + seq(Occurrences(ds, dir) - 1, _ => None))
  }

  /** removeDirectory's copy, into an array of length |ds| - 1. */
  method CopyWithout(ds: seq<Path>, dir: Path) returns (r: Result<seq<Option<Path>>>)
    ensures r == WithoutDirectory(ds, dir)
  {
    if |ds| == 0 {
      return Err(NegativeArraySizeException);
    }
    var a := new Option<Path>[|ds| - 1](_ => None);
    var removed := false;
    var c := 0;
    var k := 0;
    while k < |ds|
      invariant 0 <= k <= |ds|
      invariant c == |Others(ds[..k], dir)| <= a.Length
      invariant a[..c] == Wrapped(Others(ds[..k], dir))
      invariant forall j :: c <= j < a.Length ==> a[j].None?
      invariant removed <==> dir in ds[..k]
    {
      OthersStep(ds, dir, k);
      if ds[k] == dir {
        removed := true;
      } else {
        if c == a.Length {
          OverrunMeansAbsent(ds, dir, k);
          return Err(ArrayIndexOutOfBoundsException);
        }
        a[c] := Some(ds[k]);
        c := c + 1;
      }
      k := k + 1;
    }
    assert ds[..k] == ds;
    // The IllegalArgumentException for a directory never found cannot be reached: the copy overruns first.
    CopyComplete(ds, dir, a[..], c);
    r := Ok(a[..]);
  }

  /** The copy loop's step: entry k is kept exactly when it is not dir. */
  lemma OthersStep(ds: seq<Path>, dir: Path, k: nat)
    requires k < |ds|
    ensures Others(ds[..k + 1], dir) == Others(ds[..k], dir) + (if ds[k] == dir then [] else [ds[k]])
    ensures dir in ds[..k + 1] <==> dir in ds[..k] || ds[k] == dir
  {
    assert ds[..k + 1][..k] == ds[..k];
  }

  /** A copy that did not overrun holds the other entries, then a null slot per extra occurrence. */
  lemma CopyComplete(ds: seq<Path>, dir: Path, a: seq<Option<Path>>, c: nat)
    requires |a| == |ds| - 1 && c == |Others(ds, dir)| <= |a|
    requires a[..c] == Wrapped(Others(ds, dir))
    requires forall j :: c <= j < |a| ==> a[j].None?
    ensures dir in ds
    ensures a == Wrapped(Others(ds, dir)) + seq(Occurrences(ds, dir) - 1, _ => None)
  {
    OthersAndOccurrences(ds, dir);
    assert a == a[..c] + a[c..];
  }

  /** The copy runs out of room only when all earlier entries were kept, so dir is not in the list. */
  lemma OverrunMeansAbsent(ds: seq<Path>, dir: Path, k: nat)
    requires k < |ds| && ds[k] != dir
    requires |Others(ds[..k], dir)| == |ds| - 1
    ensures WithoutDirectory(ds, dir) == Err(ArrayIndexOutOfBoundsException)
  {
    OthersAndOccurrences(ds[..k], dir);
    assert k == |ds| - 1 && Occurrences(ds[..k], dir) == 0;
    assert ds == ds[..k] + [ds[k]];
  }

  /** A directory polled once is removed cleanly, leaving the others in order. */
  lemma RemoveSingle(ds: seq<Path>, dir: Path)
    requires Occurrences(ds, dir) == 1
    ensures WithoutDirectory(ds, dir) == Ok(Wrapped(Others(ds, dir)))
  {
    var none: seq<Option<Path>> := seq(Occurrences(ds, dir) - 1, _ => None);
    assert none == [];
    assert Wrapped(Others(ds, dir)) + none == Wrapped(Others(ds, dir));
  }

  /**
   * A directory polled twice leaves a null entry, which the following
   * setDirectories refuses: with an IllegalArgumentException when one of the
   * other entries before it is not a directory, with a NullPointerException
   * otherwise.
   */
  lemma RemoveDuplicateLeavesNull(ns: Nodes, ds: seq<Path>, dir: Path)
    requires Occurrences(ds, dir) >= 2
    ensures WithoutDirectory(ds, dir).Ok?
    ensures var others := Others(ds, dir);
      CheckedDirectories(ns, WithoutDirectory(ds, dir).value)
      == Err(if forall i :: 0 <= i < |others| ==> IsDirectory(ns, others[i]) then NullPointerException else IllegalArgumentException)
  {
    var none: seq<Option<Path>> := seq(Occurrences(ds, dir) - 1, _ => None);
    CheckedThroughNull(ns, Others(ds, dir), none);
  }

  /** Good paths followed by a null entry: the first bad path, or else the null, decides the exception. */
  lemma {:induction false} CheckedThroughNull(ns: Nodes, a: seq<Path>, b: seq<Option<Path>>)
    requires b != [] && b[0].None?
    ensures CheckedDirectories(ns, Wrapped(a) + b)
      == Err(if forall i :: 0 <= i < |a| ==> IsDirectory(ns, a[i]) then NullPointerException else IllegalArgumentException)
  {
    if a == [] {
      assert Wrapped(a) + b == b;
    } else {
      assert (Wrapped(a) + b)[1..] == Wrapped(a[1..]) + b;
      CheckedThroughNull(ns, a[1..], b);
      if IsDirectory(ns, a[0]) && !(forall i :: 0 <= i < |a| ==> IsDirectory(ns, a[i])) {
        var i :| 0 <= i < |a| && !IsDirectory(ns, a[i]);
        assert a[1..][i - 1] == a[i];
      }
    }
  }

  /** The index of the first entry equal to dir. */
  function IndexOfDirectory(ds: seq<Path>, dir: Path): (r: Option<nat>)
    ensures r.Some? ==> r.value < |ds| && ds[r.value] == dir && dir !in ds[..r.value]
    ensures r.None? <==> dir !in ds
  {
    if ds == [] then None
    else if ds[0] == dir then Some(0)
    else
      match IndexOfDirectory(ds[1..], dir)
      case None => None
      case Some(i) => assert ds[..i + 1] == [ds[0]] + ds[1..][..i]; Some(i + 1)
  }

  /** The loop of getBaseTime and setBaseTime(dir, t): the first matching index, or none. */
  method FindDirectory(ds: seq<Path>, dir: Path) returns (r: Option<nat>)
    ensures r == IndexOfDirectory(ds, dir)
  {
    var i := 0;
    while i < |ds|
      invariant 0 <= i <= |ds|
      invariant dir !in ds[..i]
    {
      if ds[i] == dir {
        FirstIndexIsIndexOf(ds, dir, i);
        return Some(i);
      }
      assert ds[..i + 1] == ds[..i] + [ds[i]];
      i := i + 1;
    }
    assert ds[..i] == ds;
    r := None;
  }

  lemma FirstIndexIsIndexOf(ds: seq<Path>, dir: Path, i: nat)
    requires i < |ds| && ds[i] == dir && dir !in ds[..i]
    ensures IndexOfDirectory(ds, dir) == Some(i)
  {
    var r := IndexOfDirectory(ds, dir);
    assert r.Some?;
  }

  /**
   * setBaseTime(t) calls setBaseTime(dir, t) for each entry: each call
   * sets the first entry equal to dir.
   */
  function AllBaseTimesSet(bs: seq<int>, ds: seq<Path>, k: nat, t: int): (r: seq<int>)
    requires |bs| == |ds| && k <= |ds|
    ensures |r| == |bs|
  {
    if k == 0 then bs
    else
      var prev := AllBaseTimesSet(bs, ds, k - 1, t);
      match IndexOfDirectory(ds, ds[k - 1])
      case None => prev
      case Some(j) => prev[j := t]
  }

  /** With no directory listed twice, setBaseTime(t) sets every base time. */
  lemma DistinctAllSet(bs: seq<int>, ds: seq<Path>, t: int)
    requires |bs| == |ds|
    requires forall i, j :: 0 <= i < j < |ds| ==> ds[i] != ds[j]
    ensures AllBaseTimesSet(bs, ds, |ds|, t) == seq(|ds|, _ => t)
  {
    DistinctPrefixSet(bs, ds, |ds|, t);
  }

  lemma {:induction false} DistinctPrefixSet(bs: seq<int>, ds: seq<Path>, k: nat, t: int)
    requires |bs| == |ds| && k <= |ds|
    requires forall i, j :: 0 <= i < j < |ds| ==> ds[i] != ds[j]
    ensures AllBaseTimesSet(bs, ds, k, t) == seq(|ds|, j requires 0 <= j < |ds| => if j < k then t else bs[j])
  {
    if k > 0 {
      DistinctPrefixSet(bs, ds, k - 1, t);
      assert ds[k - 1] !in ds[..k - 1];
      FirstIndexIsIndexOf(ds, ds[k - 1], k - 1);
    }
  }
}

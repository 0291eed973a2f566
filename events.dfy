// The signals a DirectoryPoller hands to its listeners, the two event
// classes that carry data, and the in-core sequence-number generator.

module Events {
  import opened Files
  import opened JavaInt

  /** The exceptions the poller passes to receiveException. */
  datatype Failure =
    | AutomoveException(origin: Path, dest: Path, message: string)
    | AutomoveDeleteException(origin: Path, dest: Path, message: string)
    | OtherFailure(message: string)

  /** A set of files found in one directory during one cycle. */
  datatype FileSetFoundEvent = FileSetFoundEvent(directory: Path, files: seq<Path>)

  /** A file moved from original to destination (the quarantine directory). */
  datatype FileMovedEvent = FileMovedEvent(original: Path, destination: Path)

  datatype Signal =
    | CycleStart
    | CycleEnd(newBaseTimes: seq<int>)
    | DirectoryLookupStart(directory: Path)
    | DirectoryLookupEnd(directory: Path)
    | FileSetFoundSignal(found: FileSetFoundEvent)
    | FileMovedSignal(moved: FileMovedEvent)
    | FileFoundSignal(file: Path)
    | ExceptionSignal(failure: Failure)
    | OtherSignal(kind: string)

  /** The files of a set event: each name resolved against the directory. */
  function FilesIn(dir: Path, names: seq<string>): seq<Path>
  {
    seq(|names|, i requires 0 <= i < |names| => Child(dir, names[i]))
  }

  /** The FileSetFoundEvent constructor, which fills the array of files one index at a time. */
  method NewFileSetFoundEvent(dir: Path, names: seq<string>) returns (e: FileSetFoundEvent)
    ensures e.directory == dir && |e.files| == |names|
    ensures forall i :: 0 <= i < |names| ==> Parent(e.files[i]) == dir && Name(e.files[i]) == names[i]
    ensures e == FileSetFoundEvent(dir, FilesIn(dir, names))
  {
    var files: seq<Path> := [];
    var i := 0;
    while i < |names|
      invariant 0 <= i <= |names|
      invariant files == FilesIn(dir, names[..i])
    {
      files := files + [Child(dir, names[i])];
      i := i + 1;
    }
    forall k | 0 <= k < |names|
      ensures Parent(files[k]) == dir && Name(files[k]) == names[k]
    {
      ChildParts(dir, names[k]);
    }
    assert names[..i] == names;
    e := FileSetFoundEvent(dir, files);
  }

  /** seqNo++ on a Java long. */
  function NextSequenceNumber(n: int): (r: int)
    requires LONG_MIN <= n <= LONG_MAX
    ensures LONG_MIN <= r <= LONG_MAX
    ensures n < LONG_MAX ==> r == n + 1
    ensures n == LONG_MAX ==> r == LONG_MIN
  {
    Wrap64(n + 1)
  }

  /** The number a fresh generator hands out at its (k+1)-th call. */
  function Issued(k: nat): (r: int)
    ensures LONG_MIN <= r <= LONG_MAX
  {
    if k == 0 then 0 else NextSequenceNumber(Issued(k - 1))
  }

  /** The k-th call of a fresh generator returns k, for every k a long can hold. */
  lemma {:induction false} IssuedIsCallCount(k: nat)
    requires k <= LONG_MAX
    ensures Issued(k) == k
  {
    if k > 0 {
      IssuedIsCallCount(k - 1);
    }
  }

  /** Numbers handed out one after another increase until the long wraps around. */
  lemma IssuedIncreasing(j: nat, k: nat)
    requires j < k <= LONG_MAX
    ensures Issued(j) < Issued(k)
  {
    IssuedIsCallCount(j);
    IssuedIsCallCount(k);
  }

  class CoreSequenceNumberGenerator {
    var seqNo: int

    predicate Valid()
      reads this
    {
      LONG_MIN <= seqNo <= LONG_MAX
    }

    constructor ()
      ensures Valid() && seqNo == 0
    {
      seqNo := 0;
    }

    method GetNextSequenceNumber() returns (n: int)
      requires Valid()
      modifies this
      ensures Valid()
      ensures n == old(seqNo) && seqNo == NextSequenceNumber(old(seqNo))
    {
      n := seqNo;
      seqNo := NextSequenceNumber(seqNo);
    }
  }
}

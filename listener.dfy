// DefaultListener: the adapter that turns the poller's signals into calls
// on one PollManager.

module Listener {
  import opened Files
  import opened Events
  import opened Outcomes
  import opened Text

  /** The nine PollManager callbacks, with what each receives. */
  datatype Callback =
    | CycleStarted
    | CycleEnded(newBaseTimes: seq<int>)
    | DirectoryLookupStarted(directory: Path)
    | DirectoryLookupEnded(directory: Path)
    | FileSetFound(found: FileSetFoundEvent)
    | FileMoved(moved: FileMovedEvent)
    | FileFound(file: Path)
    | ExceptionMovingFile(file: Path, dest: Path)
    | ExceptionDeletingTargetFile(target: Path)
  {
    predicate IsExceptionCallback()
    {
      ExceptionMovingFile? || ExceptionDeletingTargetFile?
    }
  }

  /** The signal that carries a lifecycle callback's event. */
  function SignalOf(c: Callback): Signal
    requires !c.IsExceptionCallback()
  {
    match c
    case CycleStarted => CycleStart
    case CycleEnded(t) => CycleEnd(t)
    case DirectoryLookupStarted(d) => DirectoryLookupStart(d)
    case DirectoryLookupEnded(d) => DirectoryLookupEnd(d)
    case FileSetFound(e) => FileSetFoundSignal(e)
    case FileMoved(e) => FileMovedSignal(e)
    case FileFound(f) => FileFoundSignal(f)
  }

  /**
   * receive: nothing while the poller shuts down; otherwise the matching
   * callback for each of the seven event kinds, and an exception for any
   * other signal.
   */
  function Receive(shuttingDown: bool, s: Signal): (r: Result<Option<Callback>>)
    ensures shuttingDown ==> r == Ok(None)
    ensures !shuttingDown ==> (r.Err? <==> s.ExceptionSignal? || s.OtherSignal?)
    ensures r.Ok? && r.value.Some? ==> !r.value.value.IsExceptionCallback() && SignalOf(r.value.value) == s
  {
    if shuttingDown then Ok(None)
    else
      match s
      case CycleStart => Ok(Some(CycleStarted))
      case CycleEnd(t) => Ok(Some(CycleEnded(t)))
      case DirectoryLookupStart(d) => Ok(Some(DirectoryLookupStarted(d)))
      case DirectoryLookupEnd(d) => Ok(Some(DirectoryLookupEnded(d)))
      case FileMovedSignal(e) => Ok(Some(FileMoved(e)))
      case FileSetFoundSignal(e) => Ok(Some(FileSetFound(e)))
      case FileFoundSignal(f) => Ok(Some(FileFound(f)))
      case ExceptionSignal(_) => Err(RuntimeException("Unexpected signal"))
      case OtherSignal(_) => Err(RuntimeException("Unexpected signal"))
  }

  /** Every lifecycle callback is reached, from exactly the signal that carries its event. */
  lemma ReceiveReachesEveryCallback(c: Callback)
    requires !c.IsExceptionCallback()
    ensures Receive(false, SignalOf(c)) == Ok(Some(c))
  {
  }

  /**
   * receiveException: a failure to delete the old target reports the
   * target; a failure to move reports origin and destination; anything
   * else is an exception.
   */
  function ReceiveException(f: Failure): (r: Result<Callback>)
    ensures r.Ok? <==> !f.OtherFailure?
    ensures r.Ok? ==> r.value.IsExceptionCallback()
    ensures f.AutomoveDeleteException? ==> r == Ok(ExceptionDeletingTargetFile(f.dest))
    ensures f.AutomoveException? ==> r == Ok(ExceptionMovingFile(f.origin, f.dest))
  {
    match f
    case AutomoveDeleteException(_, d, _) => Ok(ExceptionDeletingTargetFile(d))
    case AutomoveException(o, d, _) => Ok(ExceptionMovingFile(o, d))
    case OtherFailure(_) => Err(RuntimeException("Unexpected exception"))
  }

  /**
   * How the signal source hands a signal to this listener: exception
   * signals to receiveException (not gated by shutdown), all others to receive.
   */
  function Deliver(shuttingDown: bool, s: Signal): Result<Option<Callback>>
  {
    if s.ExceptionSignal? then
      match ReceiveException(s.failure)
      case Ok(c) => Ok(Some(c))
      case Err(e) => Err(e)
    else Receive(shuttingDown, s)
  }

  /** The callbacks a manager sees for a log of signals, while the poller runs normally. */
  function Delivered(log: seq<Signal>): Result<seq<Callback>>
  {
    if log == [] then Ok([])
    else
      match Delivered(log[..|log| - 1])
      case Err(e) => Err(e)
      case Ok(cs) =>
        match Deliver(false, log[|log| - 1])
        case Err(e) => Err(e)
        case Ok(None) => Ok(cs)
        case Ok(Some(c)) => Ok(cs + [c])
  }

  /** A signal the listener can handle: no foreign kind, no foreign exception. */
  predicate Expected(s: Signal)
  {
    !s.OtherSignal? && (s.ExceptionSignal? ==> !s.failure.OtherFailure?)
  }

  /** A log free of unexpected signals reaches the manager one callback per signal. */
  lemma {:induction false} DeliveredOnePerSignal(log: seq<Signal>)
    requires forall i :: 0 <= i < |log| ==> Expected(log[i])
    ensures Delivered(log).Ok? && |Delivered(log).value| == |log|
  {
    if log != [] {
      DeliveredOnePerSignal(log[..|log| - 1]);
    }
  }
}

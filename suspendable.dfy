// SuspendablePollManager: wraps another PollManager and drops callbacks
// while suspended; exception callbacks can be let through regardless.

module Suspendable {
  import opened Listener

  /** Whether a wrapper in this state passes the callback on. */
  predicate Passes(suspended: bool, processExceptionEvents: bool, c: Callback)
  {
    if c.IsExceptionCallback() then !(suspended && !processExceptionEvents) else !suspended
  }

  /** The callbacks the wrapped manager receives from a run of callbacks in one state. */
  function PassedOn(suspended: bool, processExceptionEvents: bool, cs: seq<Callback>): (r: seq<Callback>)
    ensures |r| <= |cs|
  {
    if cs == [] then []
    else
      PassedOn(suspended, processExceptionEvents, cs[..|cs| - 1])
      + (if Passes(suspended, processExceptionEvents, cs[|cs| - 1]) then [cs[|cs| - 1]] else [])
  }

  /** The exception callbacks of a run, in order. */
  function ExceptionCallbacks(cs: seq<Callback>): seq<Callback>
  {
    if cs == [] then []
    else ExceptionCallbacks(cs[..|cs| - 1]) + (if cs[|cs| - 1].IsExceptionCallback() then [cs[|cs| - 1]] else [])
  }

  /** Not suspended, everything is forwarded unchanged. */
  lemma {:induction false} ActiveForwardsAll(processExceptionEvents: bool, cs: seq<Callback>)
    ensures PassedOn(false, processExceptionEvents, cs) == cs
  {
    if cs != [] {
      ActiveForwardsAll(processExceptionEvents, cs[..|cs| - 1]);
    }
  }

  /** Suspended, only exception callbacks get through, and only when exception processing is on. */
  lemma {:induction false} SuspendedForwardsExceptionsOnly(processExceptionEvents: bool, cs: seq<Callback>)
    ensures PassedOn(true, processExceptionEvents, cs)
         == if processExceptionEvents then ExceptionCallbacks(cs) else []
  {
    if cs != [] {
      SuspendedForwardsExceptionsOnly(processExceptionEvents, cs[..|cs| - 1]);
    }
  }

  class SuspendablePollManager {
    var suspended: bool
    const processExceptionEvents: bool
    /** The calls the wrapped manager has received, oldest first. */
    var forwarded: seq<Callback>

    constructor (processExceptionEvents: bool)
      ensures !suspended && this.processExceptionEvents == processExceptionEvents && forwarded == []
    {
      suspended := false;
      this.processExceptionEvents := processExceptionEvents;
      forwarded := [];
    }

    /** The one-argument constructor: exception events are suspended too. */
    constructor Wrapping()
      ensures !suspended && !processExceptionEvents && forwarded == []
    {
      suspended := false;
      processExceptionEvents := false;
      forwarded := [];
    }

    /** Any of the nine callbacks: forward it unless the current state drops it. */
    method Handle(c: Callback)
      modifies this
      ensures suspended == old(suspended)
      ensures forwarded == old(forwarded) + PassedOn(suspended, processExceptionEvents, [c])
    {
      assert [c][..0] == [];
      if c.IsExceptionCallback() {
        if suspended && !processExceptionEvents {
          return;
        }
      } else if suspended {
        return;
      }
      forwarded := forwarded + [c];
    }

    method SetSuspended(suspended: bool)
      modifies this
      ensures this.suspended == suspended && forwarded == old(forwarded)
    {
      this.suspended := suspended;
    }
  }
}

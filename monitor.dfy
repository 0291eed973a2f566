// org.sadun.jmx.NotificationMonitor: a JMX listener that keeps the
// notifications it receives, newest first, in a list bounded by a maximum
// log size, and prints the first or the last few of them. Notifications
// are kept as their toString() text.

module Notifications {
  import opened Outcomes

  /** handleNotification: above the maximum, remove(size()) is out of range and nothing is added; otherwise the newest goes first. */
  function AfterNotify(ns: seq<string>, maxLog: int, n: string): Result<seq<string>>
  {
    if |ns| > maxLog then Err(IndexOutOfBoundsException) else Ok([n] + ns)
  }

  /** A run of notifications, each refusal leaving the list as it was. */
  function AfterAll(ns: seq<string>, maxLog: int, msgs: seq<string>): seq<string>
    decreases |msgs|
  {
    if msgs == [] then ns
    else
      var next := AfterNotify(ns, maxLog, msgs[0]);
      AfterAll(if next.Ok? then next.value else ns, maxLog, msgs[1..])
  }

  function Reverse(xs: seq<string>): (r: seq<string>)
    ensures |r| == |xs|
  {
    if xs == [] then [] else Reverse(xs[1..]) + [xs[0]]
  }

  /** How many of the notifications are kept: as many as fit below maximum + 1. */
  function Kept(size: int, maxLog: int, count: int): (a: nat)
  {
    var room := maxLog + 1 - size;
    if room <= 0 || count <= 0 then 0 else if count < room then count else room
  }

  /**
   * The log fills up to one more than the maximum, newest first, and then
   * refuses every further notification: of a run, the first Kept are
   * stored in reverse order in front of what was there.
   */
  lemma {:induction false} FillsThenRefuses(ns: seq<string>, maxLog: int, msgs: seq<string>)
    ensures var a := Kept(|ns|, maxLog, |msgs|);
      a <= |msgs| && AfterAll(ns, maxLog, msgs) == Reverse(msgs[..a]) + ns
    decreases |msgs|
  {
    var a := Kept(|ns|, maxLog, |msgs|);
    if msgs == [] {
      assert msgs[..0] == [];
    } else if |ns| > maxLog {
      FillsThenRefuses(ns, maxLog, msgs[1..]);
      assert Kept(|ns|, maxLog, |msgs| - 1) == 0 && a == 0;
      assert msgs[1..][..0] == [] && msgs[..0] == [];
    } else {
      var ns1 := [msgs[0]] + ns;
      FillsThenRefuses(ns1, maxLog, msgs[1..]);
      var b := Kept(|ns1|, maxLog, |msgs| - 1);
      assert b == a - 1;
      assert msgs[..a][1..] == msgs[1..][..b];
      assert msgs[..a][0] == msgs[0];
      assert Reverse(msgs[..a]) == Reverse(msgs[1..][..b]) + [msgs[0]];
    }
  }

  /** The list never grows beyond one more than the maximum (nor beyond its own size, when it is already larger). */
  lemma LogBounded(ns: seq<string>, maxLog: int, msgs: seq<string>)
    ensures |AfterAll(ns, maxLog, msgs)| <= (if |ns| > maxLog + 1 then |ns| else maxLog + 1)
  {
    FillsThenRefuses(ns, maxLog, msgs);
  }

  /** Index i of the listing loop: i from the front, or size - i from the back. */
  function Index(size: int, i: int, forward: bool): int
  {
    if forward then i else size - i
  }

  /** The first `count` rounds of the listing loop: one line per entry, or the IndexOutOfBoundsException of the first bad get. */
  function ListedRounds(ns: seq<string>, count: nat, forward: bool): Result<string>
  {
    if count == 0 then Ok("")
    else
      match ListedRounds(ns, count - 1, forward)
      case Err(e) => Err(e)
      case Ok(s) =>
        var k := Index(|ns|, count - 1, forward);
        if 0 <= k < |ns| then Ok(s + ns[k] + "\n") else Err(IndexOutOfBoundsException)
  }

  /** list(n, forward), -1 standing for the whole log. */
  function Listed(ns: seq<string>, n: int, forward: bool): Result<string>
  {
    var count := if n == -1 then |ns| else n;
    ListedRounds(ns, if count < 0 then 0 else count, forward)
  }

  /** The entries one per line. */
  function Lines(xs: seq<string>): string
  {
    if xs == [] then "" else Lines(xs[..|xs| - 1]) + xs[|xs| - 1] + "\n"
  }

  lemma {:induction false} HeadRounds(ns: seq<string>, count: nat)
    requires count <= |ns|
    ensures ListedRounds(ns, count, true) == Ok(Lines(ns[..count]))
  {
    if count > 0 {
      HeadRounds(ns, count - 1);
      assert ns[..count][..count - 1] == ns[..count - 1];
    }
  }

  lemma {:induction false} ErrorSticks(ns: seq<string>, k: nat, count: nat, forward: bool)
    requires k <= count && ListedRounds(ns, k, forward).Err?
    ensures ListedRounds(ns, count, forward) == ListedRounds(ns, k, forward)
    decreases count - k
  {
    if k < count {
      ErrorSticks(ns, k, count - 1, forward);
    }
  }

  /** head(n) for n up to the size lists the first n entries, newest first; beyond the size it fails. */
  lemma HeadLists(ns: seq<string>, n: int)
    requires n != -1
    ensures 0 <= n <= |ns| ==> Listed(ns, n, true) == Ok(Lines(ns[..n]))
    ensures n < 0 ==> Listed(ns, n, true) == Ok("")
    ensures n > |ns| ==> Listed(ns, n, true) == Err(IndexOutOfBoundsException)
  {
    if 0 <= n <= |ns| {
      HeadRounds(ns, n);
    } else if n > |ns| {
      HeadRounds(ns, |ns|);
      assert ListedRounds(ns, |ns| + 1, true) == Err(IndexOutOfBoundsException);
      ErrorSticks(ns, |ns| + 1, n, true);
    }
  }

  /** listNotifications is head(-1): every entry, newest first. */
  lemma ListAllLines(ns: seq<string>)
    ensures Listed(ns, -1, true) == Ok(Lines(ns))
  {
    HeadRounds(ns, |ns|);
    assert ns[..|ns|] == ns;
  }

  /** tail(n) for any n from 1 reads index size - 0 first, which is out of range. */
  lemma TailFails(ns: seq<string>, n: int)
    requires n >= 1 || (n == -1 && ns != [])
    ensures Listed(ns, n, false) == Err(IndexOutOfBoundsException)
  {
    var count := if n == -1 then |ns| else n;
    assert ListedRounds(ns, 1, false) == Err(IndexOutOfBoundsException);
    ErrorSticks(ns, 1, count, false);
  }

  class NotificationMonitor {
    var notifications: seq<string>
    var logSize: int

    constructor ()
      ensures notifications == [] && logSize == 100
    {
      notifications := [];
      logSize := 100;
    }

    method HandleNotification(n: string) returns (r: Result<()>)
      modifies this`notifications
      ensures AfterNotify(old(notifications), logSize, n) == (if r.Ok? then Ok(notifications) else Err(r.error))
      ensures r.Err? ==> notifications == old(notifications)
    {
      if |notifications| > logSize {
        return Err(IndexOutOfBoundsException);
      }
      notifications := [n] + notifications;
      r := Ok(());
    }

    /** The maximum decides whether the next notification is stored or refused. */
    function GetMaxLogSize(): (r: int)
      reads this
      ensures r == logSize
      ensures |notifications| > r ==> forall m :: AfterNotify(notifications, r, m).Err?
      ensures |notifications| <= r ==> forall m :: AfterNotify(notifications, r, m) == Ok([m] + notifications)
    {
      logSize
    }

    method SetMaxLogSize(n: int)
      modifies this`logSize
      ensures GetMaxLogSize() == n
    {
      logSize := n;
    }

    function LogSize(): (r: nat)
      reads this
      ensures r == 0 <==> notifications == []
      ensures r > logSize ==> forall m :: AfterNotify(notifications, logSize, m).Err?
    {
      |notifications|
    }

    method CleanUp()
      modifies this`notifications
      ensures LogSize() == 0
    {
      notifications := [];
    }

    /** list: the index loop, stopping at the first get that is out of range. */
    method List(n: int, forward: bool) returns (r: Result<string>)
      ensures r == Listed(notifications, n, forward)
    {
      var l := |notifications|;
      var count := n;
      if count == -1 {
        count := l;
      }
      var s := "";
      var i := 0;
      while i < count
        invariant 0 <= i && (count >= 0 ==> i <= count) && (count < 0 ==> i == 0)
        invariant ListedRounds(notifications, i, forward) == Ok(s)
      {
        var k := if forward then i else l - i;
        if !(0 <= k < l) {
          ErrorSticks(notifications, i + 1, count, forward);
          return Err(IndexOutOfBoundsException);
        }
        s := s + notifications[k] + "\n";
        i := i + 1;
      }
      assert i == (if count < 0 then 0 else count);
      r := Ok(s);
    }

    method Head(n: int) returns (r: Result<string>)
      ensures r == Listed(notifications, n, true)
    {
      r := List(n, true);
    }

    method Tail(n: int) returns (r: Result<string>)
      ensures r == Listed(notifications, n, false)
    {
      r := List(n, false);
    }

    method ListNotifications() returns (r: Result<string>)
      ensures r == Ok(Lines(notifications))
    {
      r := Head(-1);
      ListAllLines(notifications);
    }
  }
}

/**
  The poller: an ordered listener registry, a running flag that a start and a
  stop toggle, and the loop body that calls the registered listeners in order
  until one of the calls throws.
*/
module NetworkMonitor {

  /** `List.remove(Object)`: drops the first element equal to `x`, if there is one. */
  function RemoveFirst<L(==)>(s: seq<L>, x: L): (r: seq<L>)
    ensures |r| == if x in s then |s| - 1 else |s|
    decreases |s|
  {
    if s == [] then []
    else if s[0] == x then s[1..]
    else
      assert x in s <==> x in s[1..];
      [s[0]] + RemoveFirst(s[1..], x)
  }

  /** Removing an absent listener leaves the list as it is. */
  lemma {:induction false} RemoveFirstAbsent<L>(s: seq<L>, x: L)
    requires x !in s
    ensures RemoveFirst(s, x) == s
    decreases |s|
  {
    if s != [] {
      assert s[0] in s;
      RemoveFirstAbsent(s[1..], x);
    }
  }

  /**
    When `i` is the first position holding `x`, exactly that element goes, and
    what comes before and after it keeps its order.
  */
  lemma {:induction false} RemoveFirstAtFirstOccurrence<L>(s: seq<L>, x: L, i: nat)
    requires i < |s| && s[i] == x && x !in s[..i]
    ensures RemoveFirst(s, x) == s[..i] + s[i + 1..]
    decreases i
  {
    if i > 0 {
      assert s[0] in s[..i];
      assert s[1..][..i - 1] == s[1..i];
      assert x !in s[1..][..i - 1];
      RemoveFirstAtFirstOccurrence(s[1..], x, i - 1);
      assert s[..i] == [s[0]] + s[1..][..i - 1];
      assert s[1..][i..] == s[i + 1..];
    }
  }

  /** Whether the call at position `i` of a pass throws; calls past the end of `throws` return normally. */
  predicate ThrowsAt(throws: seq<bool>, i: nat)
  {
    i < |throws| && throws[i]
  }

  /**
    The listeners a loop pass calls from position `i` of the snapshot on. The
    Java loop body is a single try block around the whole `for`, so a call that
    throws ends the pass: that listener has been called, and the listeners
    after it are skipped. `throws` says, per position of the pass, whether
    that call throws.
  */
  function DeliveredFrom<L>(snapshot: seq<L>, throws: seq<bool>, i: nat): (d: seq<L>)
    requires i <= |snapshot|
    ensures |d| <= |snapshot| - i && d == snapshot[i..i + |d|]
    decreases |snapshot| - i
  {
    if i == |snapshot| then []
    else if ThrowsAt(throws, i) then [snapshot[i]]
    else [snapshot[i]] + DeliveredFrom(snapshot, throws, i + 1)
  }

  /** The listeners one whole pass calls. */
  function DeliveredUntilFailure<L>(snapshot: seq<L>, throws: seq<bool>): (d: seq<L>)
    ensures |d| <= |snapshot| && d == snapshot[..|d|]
  {
    DeliveredFrom(snapshot, throws, 0)
  }

  /** Without a throwing call every listener of the snapshot is called once, in registry order. */
  lemma {:induction false} DeliveredAllWithoutFailure<L>(snapshot: seq<L>, throws: seq<bool>, i: nat)
    requires i <= |snapshot|
    requires forall k :: i <= k < |snapshot| ==> !ThrowsAt(throws, k)
    ensures DeliveredFrom(snapshot, throws, i) == snapshot[i..]
    decreases |snapshot| - i
  {
    if i < |snapshot| {
      DeliveredAllWithoutFailure(snapshot, throws, i + 1);
      assert snapshot[i..] == [snapshot[i]] + snapshot[i + 1..];
    }
  }

  /** No call of a pass before its last one throws. */
  lemma {:induction false} DeliveredStopsOnlyAtLast<L>(snapshot: seq<L>, throws: seq<bool>, i: nat, k: nat)
    requires i <= |snapshot| && i <= k < i + |DeliveredFrom(snapshot, throws, i)| - 1
    ensures !ThrowsAt(throws, k)
    decreases |snapshot| - i
  {
    if k > i {
      DeliveredStopsOnlyAtLast(snapshot, throws, i + 1, k);
    }
  }

  /** A pass that stops short of the end of the snapshot stops at a call that throws. */
  lemma {:induction false} DeliveredShortOnlyAfterThrow<L>(snapshot: seq<L>, throws: seq<bool>, i: nat)
    requires i <= |snapshot|
    requires |DeliveredFrom(snapshot, throws, i)| < |snapshot| - i
    ensures ThrowsAt(throws, i + |DeliveredFrom(snapshot, throws, i)| - 1)
    decreases |snapshot| - i
  {
    if !ThrowsAt(throws, i) {
      DeliveredShortOnlyAfterThrow(snapshot, throws, i + 1);
    }
  }

  class NetworkMonitor<L(==)> {
    var listeners: seq<L>
    var running: bool
    /** How many monitor threads have been started. */
    var loopsStarted: nat
    /** The sleep interval of the most recently started thread. */
    var loopInterval: int
    /** Every `checkNetwork` call made so far, as the listener it went to, oldest first. */
    var invocations: seq<L>

    constructor ()
      ensures listeners == [] && !running && loopsStarted == 0 && invocations == []
    {
      listeners := [];
      running := false;
      loopsStarted := 0;
      loopInterval := 0;
      invocations := [];
    }

    /** `addListener`: appended at the end. */
    method AddListener(listener: L)
      modifies this`listeners
      ensures listeners == old(listeners) + [listener]
    {
      listeners := listeners + [listener];
    }

    /** `removeListener`. */
    method RemoveListener(listener: L)
      modifies this`listeners
      ensures listeners == RemoveFirst(old(listeners), listener)
      ensures listener !in old(listeners) ==> listeners == old(listeners)
      ensures forall i :: 0 <= i < |old(listeners)| && old(listeners)[i] == listener &&
                          listener !in old(listeners)[..i] ==>
                listeners == old(listeners)[..i] + old(listeners)[i + 1..]
    {
      if listener !in listeners {
        RemoveFirstAbsent(listeners, listener);
      }
      forall i | 0 <= i < |listeners| && listeners[i] == listener && listener !in listeners[..i]
        ensures RemoveFirst(listeners, listener) == listeners[..i] + listeners[i + 1..]
      {
        RemoveFirstAtFirstOccurrence(listeners, listener, i);
      }
      listeners := RemoveFirst(listeners, listener);
    }

    /** `startMonitoring`: a no-op while running; otherwise sets the flag and starts one thread. */
    method StartMonitoring(intervalMs: int)
      modifies this`running, this`loopsStarted, this`loopInterval
      ensures running
      ensures old(running) ==> loopsStarted == old(loopsStarted) && loopInterval == old(loopInterval)
      ensures !old(running) ==> loopsStarted == old(loopsStarted) + 1 && loopInterval == intervalMs
    {
      if running {
        return;
      }
      running := true;
      loopsStarted := loopsStarted + 1;
      loopInterval := intervalMs;
    }

    /** `stopMonitoring`: clears the flag and nothing else, so a second call changes nothing. */
    method StopMonitoring()
      modifies this`running
      ensures !running
    {
      running := false;
    }

    /**
      One turn of the thread's `while (running)` loop: when the flag is set,
      call the listeners of a snapshot of the registry in order. `throws[k]`
      says whether the `checkNetwork` call at position `k` of this pass throws.
      Returns whether the body ran.
    */
    method LoopIteration(throws: seq<bool>) returns (ran: bool)
      modifies this`invocations
      ensures ran == running
      ensures invocations == old(invocations) +
                (if running then DeliveredUntilFailure(listeners, throws) else [])
    {
      if !running {
        return false;
      }
      var snapshot := listeners;
      var i := 0;
      while i < |snapshot|
        invariant 0 <= i <= |snapshot|
        invariant invocations + DeliveredFrom(snapshot, throws, i)
                  == old(invocations) + DeliveredUntilFailure(snapshot, throws)
      {
        assert DeliveredFrom(snapshot, throws, i) ==
               [snapshot[i]] + if ThrowsAt(throws, i) then [] else DeliveredFrom(snapshot, throws, i + 1);
        invocations := invocations + [snapshot[i]];
        if ThrowsAt(throws, i) {
          break;
        }
        i := i + 1;
      }
      return true;
    }
  }

  /** Starting twice starts one thread; stopping twice is stopping once. */
  method StartAndStopAreIdempotent()
  {
    var m := new NetworkMonitor<nat>();
    m.StartMonitoring(3000);
    m.StartMonitoring(1000);
    assert m.running && m.loopsStarted == 1 && m.loopInterval == 3000;
    m.StopMonitoring();
    m.StopMonitoring();
    assert !m.running && m.loopsStarted == 1;
    var ran := m.LoopIteration([]);
    assert !ran && m.invocations == [];
  }
}

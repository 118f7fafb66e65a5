/**
  The plugin side: the reachability gate in front of the classifier, the
  change detector that forwards a connection type to JavaScript only when it
  differs from the last one forwarded, and the `getConnectionInfo` action.
  Everything the plugin sends out is appended to an event log.
*/
module NetworkManager {
  import opened Wrappers
  import opened NetworkTypeDetector

  /** A JavaScript callback handle. */
  type CallbackId = nat

  /** What the plugin sends out. Every plugin result it sends has status OK and keeps the callback. */
  datatype Event =
    | PluginResult(callback: CallbackId, payload: string)
    | PostMessage(channel: string, payload: string)

  const GetConnectionInfoAction := "getConnectionInfo"
  const NetworkConnectionChannel := "networkconnection"

  // ---------------------------------------------------------------------------
  // The event log and the updates it carries
  // ---------------------------------------------------------------------------

  /** The connection types posted on the "networkconnection" channel, oldest first. */
  function Posted(log: seq<Event>): seq<string>
  {
    if log == [] then []
    else
      (if log[0].PostMessage? && log[0].channel == NetworkConnectionChannel then [log[0].payload] else [])
      + Posted(log[1..])
  }

  lemma {:induction false} PostedAppend(a: seq<Event>, b: seq<Event>)
    ensures Posted(a + b) == Posted(a) + Posted(b)
    decreases |a|
  {
    if a == [] {
      assert a + b == b;
    } else {
      assert (a + b)[1..] == a[1..] + b;
      PostedAppend(a[1..], b);
    }
  }

  /** What `sendUpdate` sends: a plugin result to the stored callback if there is one, then the post. */
  function UpdateEvents(callback: Option<CallbackId>, t: string): seq<Event>
  {
    (if callback.Some? then [PluginResult(callback.value, t)] else [])
    + [PostMessage(NetworkConnectionChannel, t)]
  }

  /** One update posts exactly one connection type, the one it was given, whether or not a callback is stored. */
  lemma UpdatePostsOnce(callback: Option<CallbackId>, t: string)
    ensures Posted(UpdateEvents(callback, t)) == [t]
    ensures |UpdateEvents(callback, t)| == if callback.Some? then 2 else 1
  {
    var post := [PostMessage(NetworkConnectionChannel, t)];
    assert Posted(post) == [t];
    if callback.Some? {
      PostedAppend([PluginResult(callback.value, t)], post);
    } else {
      assert UpdateEvents(callback, t) == post;
    }
  }

  // ---------------------------------------------------------------------------
  // Collapsing runs of equal values
  // ---------------------------------------------------------------------------

  /** `s` with every run of consecutive equal values reduced to one value. */
  function Collapse<T(==)>(s: seq<T>): seq<T>
    decreases |s|
  {
    if |s| <= 1 then s
    else if s[0] == s[1] then Collapse(s[1..])
    else [s[0]] + Collapse(s[1..])
  }

  ghost predicate NoAdjacentDuplicates<T>(s: seq<T>)
  {
    forall i :: 0 <= i < |s| - 1 ==> s[i] != s[i + 1]
  }

  lemma {:induction false} CollapseKeepsEnds<T>(s: seq<T>)
    requires s != []
    ensures Collapse(s) != []
    ensures Collapse(s)[0] == s[0]
    ensures Collapse(s)[|Collapse(s)| - 1] == s[|s| - 1]
    decreases |s|
  {
    if |s| > 1 {
      CollapseKeepsEnds(s[1..]);
    }
  }

  /** Collapsing never leaves two equal neighbours. */
  lemma {:induction false} CollapseHasNoAdjacentDuplicates<T>(s: seq<T>)
    ensures NoAdjacentDuplicates(Collapse(s))
    decreases |s|
  {
    if |s| > 1 {
      CollapseHasNoAdjacentDuplicates(s[1..]);
      CollapseKeepsEnds(s[1..]);
    }
  }

  /** A sequence without equal neighbours is left as it is; so collapsing twice is collapsing once. */
  lemma {:induction false} CollapseFixesNoAdjacentDuplicates<T>(s: seq<T>)
    requires NoAdjacentDuplicates(s)
    ensures Collapse(s) == s
    decreases |s|
  {
    if |s| > 1 {
      assert s[0] != s[1];
      assert NoAdjacentDuplicates(s[1..]) by {
        forall i | 0 <= i < |s[1..]| - 1
          ensures s[1..][i] != s[1..][i + 1]
        {
          assert s[1..][i] == s[i + 1] && s[1..][i + 1] == s[i + 2];
        }
      }
      CollapseFixesNoAdjacentDuplicates(s[1..]);
    }
  }

  lemma CollapseIdempotent<T>(s: seq<T>)
    ensures Collapse(Collapse(s)) == Collapse(s)
  {
    CollapseHasNoAdjacentDuplicates(s);
    CollapseFixesNoAdjacentDuplicates(Collapse(s));
  }

  /** Adding one observation adds it to the collapsed sequence exactly when it differs from the previous one. */
  lemma {:induction false} CollapseSnoc<T>(s: seq<T>, x: T)
    ensures Collapse(s + [x]) ==
              if s != [] && s[|s| - 1] == x then Collapse(s) else Collapse(s) + [x]
    decreases |s|
  {
    if |s| == 1 {
      assert s + [x] == [s[0], x];
      assert [s[0], x][1..] == [x];
    } else if |s| > 1 {
      assert (s + [x])[1..] == s[1..] + [x];
      CollapseSnoc(s[1..], x);
    }
  }

  // ---------------------------------------------------------------------------
  // The reachability gate
  // ---------------------------------------------------------------------------

  /**
    `t` is a type the gate may report: "unknown" unless the probe answered
    "reachable", and otherwise the name of a possible primary type.
  */
  ghost predicate IsGatedType(probe: Option<bool>, enumeration: Option<seq<Interface>>, t: string)
  {
    if probe == Some(true) then
      exists nt :: IsPrimaryCandidate(enumeration, nt) && t == TypeName(nt)
    else
      t == TypeName(Unknown)
  }

  /**
    `getTypeOfNetworkFallbackToTypeNoneIfNotConnected`. `probe` is the answer
    of the reachability check: `Some(reachable)`, or `None` when resolving or
    probing the host threw.
  */
  method TypeOfNetworkFallbackToNone(probe: Option<bool>, enumeration: Option<seq<Interface>>)
    returns (t: string)
    ensures probe != Some(true) ==> t == TypeName(Unknown)
    ensures probe == Some(true) ==> exists nt :: IsPrimaryCandidate(enumeration, nt) && t == TypeName(nt)
  {
    if probe.None? || !probe.value {
      return TypeName(Unknown);
    }
    var primary := GetPrimaryNetworkType(enumeration);
    t := TypeName(primary);
  }

  // ---------------------------------------------------------------------------
  // The plugin's state
  // ---------------------------------------------------------------------------

  class NetworkManager {
    var connectionCallbackContext: Option<CallbackId>
    var lastTypeOfNetwork: Option<string>
    /** Everything sent to JavaScript, oldest first. */
    var log: seq<Event>
    /** The type computed by each change check so far, oldest first. */
    ghost var observed: seq<string>

    /**
      The change detector's invariant: what has been posted is the observed
      types with runs collapsed, and the stored type is the last observed one
      (null before the first check).
    */
    ghost predicate Valid()
      reads this
    {
      Posted(log) == Collapse(observed) &&
      lastTypeOfNetwork == (if observed == [] then None else Some(observed[|observed| - 1]))
    }

    /** The fields as `initialize` leaves them. */
    constructor ()
      ensures Valid()
      ensures connectionCallbackContext == None && lastTypeOfNetwork == None
      ensures log == [] && observed == []
    {
      connectionCallbackContext := None;
      lastTypeOfNetwork := None;
      log := [];
      observed := [];
    }

    /**
      `sendUpdate`. It posts `t` whatever the state, so on its own it does not
      keep `Valid()`; `UpdateConnectionInfo` records the observation beside it.
    */
    method SendUpdate(t: string)
      modifies this`log
      ensures log == old(log) + UpdateEvents(connectionCallbackContext, t)
      ensures Posted(log) == Posted(old(log)) + [t]
    {
      PostedAppend(log, UpdateEvents(connectionCallbackContext, t));
      UpdatePostsOnce(connectionCallbackContext, t);
      if connectionCallbackContext.Some? {
        log := log + [PluginResult(connectionCallbackContext.value, t)];
      }
      log := log + [PostMessage(NetworkConnectionChannel, t)];
    }

    /** `updateConnectionInfo`: one change check. It returns the type it computed. */
    method UpdateConnectionInfo(probe: Option<bool>, enumeration: Option<seq<Interface>>)
      returns (current: string)
      requires Valid()
      modifies this`log, this`lastTypeOfNetwork, this`observed
      ensures Valid()
      ensures IsGatedType(probe, enumeration, current)
      ensures observed == old(observed) + [current]
      ensures old(lastTypeOfNetwork) == Some(current) ==>
                log == old(log) && lastTypeOfNetwork == old(lastTypeOfNetwork)
      ensures old(lastTypeOfNetwork) != Some(current) ==>
                log == old(log) + UpdateEvents(connectionCallbackContext, current) &&
                lastTypeOfNetwork == Some(current)
    {
      current := TypeOfNetworkFallbackToNone(probe, enumeration);
      CollapseSnoc(observed, current);
      if lastTypeOfNetwork == Some(current) {
        // unchanged: nothing is propagated
      } else {
        SendUpdate(current);
        lastTypeOfNetwork := Some(current);
      }
      observed := observed + [current];
    }

    /** `execute`: only "getConnectionInfo" is handled; it replies with the current type and keeps the callback. */
    method Execute(action: string, callback: CallbackId, probe: Option<bool>, enumeration: Option<seq<Interface>>)
      returns (handled: bool)
      requires Valid()
      modifies this`connectionCallbackContext, this`log
      ensures Valid()
      ensures handled <==> action == GetConnectionInfoAction
      ensures !handled ==> connectionCallbackContext == old(connectionCallbackContext) && log == old(log)
      ensures handled ==> connectionCallbackContext == Some(callback)
      ensures handled ==> exists t :: IsGatedType(probe, enumeration, t) && log == old(log) + [PluginResult(callback, t)]
      ensures lastTypeOfNetwork == old(lastTypeOfNetwork) && observed == old(observed)
    {
      if action == GetConnectionInfoAction {
        connectionCallbackContext := Some(callback);
        var connectionType := TypeOfNetworkFallbackToNone(probe, enumeration);
        PostedAppend(log, [PluginResult(callback, connectionType)]);
        log := log + [PluginResult(callback, connectionType)];
        return true;
      }
      return false;
    }

    /** Over any run of change checks, no type is posted twice in a row. */
    lemma PostedHasNoRepeats()
      requires Valid()
      ensures NoAdjacentDuplicates(Posted(log))
    {
      CollapseHasNoAdjacentDuplicates(observed);
    }
  }

  /** Two checks that both see wifi post exactly one update. */
  method TwoWifiChecksPostOnce()
  {
    var netIf := Interface("wlan0", "Wireless", true, false);
    var reachable, wlan := Some(true), Some([netIf]);
    assert HasActive(wlan) by { assert netIf in wlan.value && IsActive(netIf); }
    WifiTakesPriority("Wireless", true, false);
    var m := new NetworkManager();
    var first := m.UpdateConnectionInfo(reachable, wlan);
    var second := m.UpdateConnectionInfo(reachable, wlan);
    assert first == TypeName(Wifi) && second == TypeName(Wifi);
    assert Posted(m.log) == [TypeName(Wifi)];
  }
}

# Network information plugin (desktop back end): a verified model

This project models the core of the desktop (SWT) back end of a Cordova
network-information plugin in Dafny:

- **The interface classifier** (`NetworkTypeDetector`). Each interface that
  is up and not a loopback gets one of `wifi`, `ethernet`, `mobile` or
  `unknown`. The decision comes from case-insensitive substring and prefix
  tests on the interface name and display name, tried in a fixed priority
  order. The primary type is the value of one entry of the resulting map, or
  `unknown` when the map is empty.
- **The reachability gate and the change detector** (`NetworkManager`). The
  current type is `unknown` unless the reachability probe says "reachable".
  A change check sends an update to JavaScript only when the current type
  differs from the last one it sent (`lastTypeOfNetwork`, initially null).
  The `getConnectionInfo` action replies with the current type and keeps the
  callback that later updates are also sent to.
- **The poller** (`NetworkMonitor`). It holds an ordered listener list, a
  running flag toggled by start and stop, and a loop body that calls the
  listeners of a snapshot of the list in order, up to and including the first
  call that throws.

The operating system and the network are inputs. The interface list is an
`Option<seq<Interface>>`, where `None` means listing the interfaces threw.
The probe's answer is an `Option<bool>`, where `None` means resolving or
probing the host threw. Everything the plugin sends to JavaScript is appended
to an event log (`PluginResult` and `PostMessage` events). Each started
monitor thread is counted in `loopsStarted`. Each listener call is recorded
in `invocations`.

The main theorem is the invariant `NetworkManager.NetworkManager.Valid()`.
The constructor establishes it, and `UpdateConnectionInfo` and `Execute`
keep it. It says that the types posted on the "networkconnection" channel
are the types computed by the change checks with consecutive duplicates
collapsed (`Collapse`). `Collapse` never leaves two equal neighbours
(`CollapseHasNoAdjacentDuplicates`). `SendUpdate` on its own does not keep
the invariant, because it posts without recording an observation. In the
program it is private and only `updateConnectionInfo` calls it, and that
method records the observation beside it. The guarantee covers the
"networkconnection" posts only. The plugin results sent to the stored
callback can repeat: `Execute` replies with the current type without
touching `lastTypeOfNetwork`, so a `getConnectionInfo` reply followed by a
first change check that sees the same type sends that type to the callback
twice in a row. That is what the program does.

Three things the code does that a reader may not expect:

- The primary type is whatever value a `HashMap` yields first. The code
  promises no enumeration order, so the model promises only that the primary
  type is the type of some active interface.
- On every tick the monitor calls every listener of the snapshot, up to and
  including the first call that throws, whether or not anything changed.
  De-duplication happens in the manager's change check, not in the monitor.
- The monitor's `try` block wraps the whole `for` loop together with the
  sleep. So one call that throws ends that pass: the listeners after it in
  the snapshot are not called in that pass, and the sleep is skipped. A
  listener that always throws therefore makes the loop run again at once,
  without sleeping. `DeliveredFrom` models the pass.

## Model

| member | source | states |
|---|---|---|
| `NetworkTypeDetector.TypeName` | src/swt/NetworkTypeDetector.java:7-12 | The string each enum constant's `toString` gives: "wifi", "ethernet", "mobile", "unknown". |
| `NetworkTypeDetector.LowerStr` | src/swt/NetworkTypeDetector.java:43-44 | ASCII `toLowerCase`: same length, no upper-case ASCII letter left, every character other than `A`-`Z` kept, and each `A`-`Z` shifted to its lower-case form. |
| `NetworkTypeDetector.StartsWith` | src/swt/NetworkTypeDetector.java:48 | `String.startsWith`. Its meaning on the lowered name is stated by `StartsWithLowered`. |
| `NetworkTypeDetector.Contains` | src/swt/NetworkTypeDetector.java:46-52 | `String.contains`. Its meaning on the lowered strings is stated by `ContainsLowered`. |
| `NetworkTypeDetector.DetectType` | src/swt/NetworkTypeDetector.java:42-57 | `detectType`: the if/else-if chain over the lowered name and display name. What it means is stated by `DetectTypeClassifies`. |
| `NetworkTypeDetector.ContainsLowered` | src/swt/NetworkTypeDetector.java:43-53 | `contains` on the lowered string holds exactly when the pattern occurs in the original string, compared character by character after ASCII lowering. |
| `NetworkTypeDetector.StartsWithLowered` | src/swt/NetworkTypeDetector.java:48 | `startsWith` on the lowered name holds exactly when the pattern occurs at position 0 of the original name, ignoring case. |
| `NetworkTypeDetector.DetectTypeClassifies` | src/swt/NetworkTypeDetector.java:42-57 | Wifi iff a wifi pattern matches. Ethernet iff no wifi pattern matches and an ethernet pattern does (including the "en" prefix). Mobile iff neither of those matches and a mobile pattern does. Unknown iff nothing matches. So each interface gets exactly one category, and the earlier groups win. |
| `NetworkTypeDetector.LowerStrIdempotent` | src/swt/NetworkTypeDetector.java:43-44 | Lowering an already lowered string changes nothing. |
| `NetworkTypeDetector.DetectTypeIgnoresCase` | src/swt/NetworkTypeDetector.java:43-44 | Lowering the name and the display name before classifying gives the same type. |
| `NetworkTypeDetector.WifiTakesPriority` | src/swt/NetworkTypeDetector.java:46-49 | An interface named `wlan0` is wifi whatever its display name, for example "Ethernet adapter". |
| `NetworkTypeDetector.GetActiveNetworkTypes` | src/swt/NetworkTypeDetector.java:17-37 | The keys are exactly the listed interfaces that are up and not loopback, and each maps to its `DetectType`. A down or loopback `wlan0` is never a key. A listing that throws gives the empty map. |
| `NetworkTypeDetector.GetPrimaryNetworkType` | src/swt/NetworkTypeDetector.java:62-68 | Unknown when no listed interface is active (this includes a listing that throws). Otherwise the type of some active interface. |
| `NetworkManager.TypeOfNetworkFallbackToNone` | src/swt/NetworkManager.java:115-126 | "unknown" when the probe says unreachable or throws, whatever interfaces are active. Otherwise the name of a possible primary type. |
| `NetworkManager.PostedAppend` | src/swt/NetworkManager.java:133-140 | The types posted by a concatenated log are those of the first part followed by those of the second. |
| `NetworkManager.UpdateEvents` | src/swt/NetworkManager.java:133-140 | The events `sendUpdate` emits: a plugin result to the stored callback, only when one is stored, then the "networkconnection" post. What the log then carries is stated by `UpdatePostsOnce`. |
| `NetworkManager.UpdatePostsOnce` | src/swt/NetworkManager.java:133-140 | An update always posts exactly the type it was given, once on "networkconnection". It sends one event without a stored callback and two events with one. |
| `NetworkManager.CollapseKeepsEnds` | src/swt/NetworkManager.java:97-107 | Collapsing keeps the first and the last element of a non-empty sequence. |
| `NetworkManager.CollapseHasNoAdjacentDuplicates` | src/swt/NetworkManager.java:97-107 | A collapsed sequence never has two equal neighbours. |
| `NetworkManager.CollapseFixesNoAdjacentDuplicates` | src/swt/NetworkManager.java:97-107 | A sequence without equal neighbours is its own collapse. |
| `NetworkManager.CollapseIdempotent` | src/swt/NetworkManager.java:97-107 | Collapsing twice is the same as collapsing once. |
| `NetworkManager.CollapseSnoc` | src/swt/NetworkManager.java:101-106 | A new observation extends the collapsed sequence by itself exactly when it differs from the previous observation, which is the change check's rule. |
| `NetworkManager.NetworkManager.constructor` | src/swt/NetworkManager.java:17-31 | Callback context and `lastTypeOfNetwork` start as null, and nothing has been sent yet. |
| `NetworkManager.NetworkManager.SendUpdate` | src/swt/NetworkManager.java:133-140 | The log grows by a plugin result to the stored callback, only if one is stored, followed by the "networkconnection" post. So the posted types grow by exactly `t`. |
| `NetworkManager.NetworkManager.UpdateConnectionInfo` | src/swt/NetworkManager.java:97-107 | The computed type passes the reachability gate. If it equals `lastTypeOfNetwork`, the log and the field are unchanged. Otherwise exactly that update is sent and the field becomes the type, so the first check after construction always sends. The invariant (posted = collapsed observations) is kept. |
| `NetworkManager.NetworkManager.Execute` | src/swt/NetworkManager.java:44-54 | Returns true iff the action is "getConnectionInfo". In that case it stores the callback and appends one reply carrying a gated type. Otherwise nothing changes. `lastTypeOfNetwork` is never touched. |
| `NetworkManager.NetworkManager.PostedHasNoRepeats` | src/swt/NetworkManager.java:97-107 | Over any run of change checks, the posted types never repeat back to back. |
| `NetworkMonitor.RemoveFirst` | src/swt/NetworkMonitor.java:18-20 | `List.remove(Object)`: the list shrinks by exactly one element when the listener is registered and keeps its length otherwise. Which element goes is stated by `RemoveFirstAtFirstOccurrence`. |
| `NetworkMonitor.RemoveFirstAbsent` | src/swt/NetworkMonitor.java:18-20 | Removing a listener that is not registered leaves the list unchanged. |
| `NetworkMonitor.RemoveFirstAtFirstOccurrence` | src/swt/NetworkMonitor.java:18-20 | Removing a registered listener drops exactly its first occurrence and keeps the order of the rest. |
| `NetworkMonitor.DeliveredFrom` | src/swt/NetworkMonitor.java:28-35 | The calls a pass makes from a position of the snapshot on are a contiguous stretch of the snapshot starting there. Calls go in registry order, with no skips or repeats. |
| `NetworkMonitor.DeliveredUntilFailure` | src/swt/NetworkMonitor.java:28-35 | The calls one whole pass makes are a prefix of the registry snapshot. |
| `NetworkMonitor.DeliveredAllWithoutFailure` | src/swt/NetworkMonitor.java:29-31 | When no call throws, a pass calls each listener of the snapshot exactly once, in registry order. |
| `NetworkMonitor.DeliveredStopsOnlyAtLast` | src/swt/NetworkMonitor.java:28-35 | No call before the last one of a pass throws. |
| `NetworkMonitor.DeliveredShortOnlyAfterThrow` | src/swt/NetworkMonitor.java:28-35 | A pass that ends before the end of the snapshot ends with a call that threw. |
| `NetworkMonitor.NetworkMonitor.constructor` | src/swt/NetworkMonitor.java:11-12 | No listeners, not running, no thread started. |
| `NetworkMonitor.NetworkMonitor.AddListener` | src/swt/NetworkMonitor.java:14-16 | The listener is appended at the end, and existing entries keep their order. |
| `NetworkMonitor.NetworkMonitor.RemoveListener` | src/swt/NetworkMonitor.java:18-20 | `List.remove(Object)`: removes the first occurrence only, and is a no-op for an absent listener. |
| `NetworkMonitor.NetworkMonitor.StartMonitoring` | src/swt/NetworkMonitor.java:22-41 | While running, nothing changes and no thread is started. While stopped, it sets `running` and starts exactly one thread with the given interval. |
| `NetworkMonitor.NetworkMonitor.StopMonitoring` | src/swt/NetworkMonitor.java:43-45 | Clears `running` and nothing else, so a second call changes nothing. |
| `NetworkMonitor.NetworkMonitor.LoopIteration` | src/swt/NetworkMonitor.java:27-36 | The body runs only while `running` is set. It then calls the listeners of the registry snapshot in order, up to and including the first call that throws. Whether a call throws belongs to its position in the pass, not to the listener. |

## Left out

- Network I/O: `InetAddress.getByName` and `isReachable(3000)`. The probe's outcome is an input, with `None` for an exception.
- The operating system's interface enumeration. The interface list is an input, with `None` for an exception from `getNetworkInterfaces`.
- Exceptions part-way through the enumeration, which leave in the map only the entries gathered before the failing interface and drop every later one. This covers a `SocketException` from `isUp` or `isLoopback`, and the `NullPointerException` from `toLowerCase` when `getDisplayName` returns null (an interface with no display name). Here each interface's flags are plain booleans and its display name is always a string, so the model never takes this path.
- `HashMap` iteration order. Which active interface is primary is chosen without constraint.
- `NetworkInterface` equality. Interfaces are records compared by value.
- Java's locale-sensitive `toLowerCase`. Lowering is ASCII only.
- Threads: `Thread` creation, `Thread.sleep`, the daemon flag, the non-volatile `running` flag, and the copy-on-write list's thread safety. Only the sequential flag transitions and one loop pass are modelled. So the stop-then-start race in `onResume`, which can leave an old thread alive, is not modelled.
- The wiring between the classes. `registerConnectivityActionReceiver` adds a listener that runs `updateConnectionInfo` and starts the monitor every time it is called. The model's listener calls are recorded in `invocations` rather than running the change check.
- The Cordova plumbing (`initialize` apart from its field reset, `onPause`, `onResume`, `onDestroy`, `CallbackContext`, `PluginResult`, `webView.postMessage`). These appear only as events in the log. Every reply and update has status OK and keeps its callback, so the events leave those flags out.
- The fixed 3000 ms poll interval and the 3000 ms probe timeout. These are timing, not logic.
- The `main` demo of the classifier and its console output.
- Logging and `printStackTrace`.

/**
  The interface classifier: every network interface that is up and not a
  loopback gets one connection type from case-insensitive tests on its name
  and display name, tried in a fixed priority order (wifi, then ethernet,
  then mobile, else unknown).
*/
module NetworkTypeDetector {
  import opened Wrappers

  datatype NetworkType = Wifi | Ethernet | Mobile | Unknown

  /** The enum constant's name, which is what `toString` hands to JavaScript. */
  function TypeName(t: NetworkType): string
  {
    match t
    case Wifi => "wifi"
    case Ethernet => "ethernet"
    case Mobile => "mobile"
    case Unknown => "unknown"
  }

  /** One interface as the operating system reports it at sampling time. */
  datatype Interface = Interface(name: string, displayName: string, up: bool, loopback: bool)

  /** Down and loopback interfaces are ignored by the classifier. */
  predicate IsActive(netIf: Interface)
  {
    netIf.up && !netIf.loopback
  }

  // ---------------------------------------------------------------------------
  // String operations as the classifier runs them: lowercase, then search
  // ---------------------------------------------------------------------------

  /** ASCII lowercasing of one character. */
  function Lower(c: char): char
  {
    if 'A' <= c <= 'Z' then (c as int + 32) as char else c
  }

  /** `toLowerCase`, restricted to ASCII. */
  function LowerStr(s: string): (r: string)
    ensures |r| == |s|
    ensures forall i :: 0 <= i < |r| ==> !('A' <= r[i] <= 'Z')
    ensures forall i :: 0 <= i < |s| ==> r[i] == s[i] || r[i] as int == s[i] as int + 32
    ensures forall i :: 0 <= i < |s| && !('A' <= s[i] <= 'Z') ==> r[i] == s[i]
  {
    seq(|s|, i requires 0 <= i < |s| => Lower(s[i]))
  }

  /** `String.startsWith`. */
  predicate StartsWith(s: string, prefix: string)
  {
    |prefix| <= |s| && s[..|prefix|] == prefix
  }

  /** `String.contains`: the pattern starts at some position of `s`. */
  predicate Contains(s: string, pattern: string)
    decreases |s|
  {
    StartsWith(s, pattern) || (|s| > 0 && Contains(s[1..], pattern))
  }

  // ---------------------------------------------------------------------------
  // Reference definitions: a lower-case pattern occurs in the ORIGINAL string
  // when each of its characters equals the lowered character at that offset
  // ---------------------------------------------------------------------------

  ghost predicate MatchesAt(s: string, pattern: string, i: int)
  {
    0 <= i && i + |pattern| <= |s| &&
    forall k :: 0 <= k < |pattern| ==> Lower(s[i + k]) == pattern[k]
  }

  ghost predicate MentionsIgnoringCase(s: string, pattern: string)
  {
    exists i :: MatchesAt(s, pattern, i)
  }

  ghost predicate BeginsIgnoringCase(s: string, pattern: string)
  {
    MatchesAt(s, pattern, 0)
  }

  /** The wifi patterns: name has "wlan" or "wifi", or display name has "wi-fi". */
  ghost predicate WifiPattern(netIf: Interface)
  {
    MentionsIgnoringCase(netIf.name, "wlan") ||
    MentionsIgnoringCase(netIf.name, "wifi") ||
    MentionsIgnoringCase(netIf.displayName, "wi-fi")
  }

  /** The ethernet patterns: name has "eth", display name has "ethernet", or name begins with "en". */
  ghost predicate EthernetPattern(netIf: Interface)
  {
    MentionsIgnoringCase(netIf.name, "eth") ||
    MentionsIgnoringCase(netIf.displayName, "ethernet") ||
    BeginsIgnoringCase(netIf.name, "en")
  }

  /** The mobile patterns: name has "ppp" or "wwan", or display name has "mobile", "cellular" or "broadband". */
  ghost predicate MobilePattern(netIf: Interface)
  {
    MentionsIgnoringCase(netIf.name, "ppp") ||
    MentionsIgnoringCase(netIf.name, "wwan") ||
    MentionsIgnoringCase(netIf.displayName, "mobile") ||
    MentionsIgnoringCase(netIf.displayName, "cellular") ||
    MentionsIgnoringCase(netIf.displayName, "broadband")
  }

  lemma StartsWithLowered(s: string, pattern: string)
    ensures StartsWith(LowerStr(s), pattern) == MatchesAt(s, pattern, 0)
  {
  }

  /** Searching the lowered string finds exactly the case-insensitive occurrences. */
  lemma {:induction false} ContainsLowered(s: string, pattern: string)
    ensures Contains(LowerStr(s), pattern) == MentionsIgnoringCase(s, pattern)
    decreases |s|
  {
    var t := LowerStr(s);
    StartsWithLowered(s, pattern);
    if |s| == 0 {
      if MentionsIgnoringCase(s, pattern) {
        var i :| MatchesAt(s, pattern, i);
        assert i == 0;
      }
    } else {
      assert t[1..] == LowerStr(s[1..]);
      ContainsLowered(s[1..], pattern);
      if MentionsIgnoringCase(s, pattern) && !MatchesAt(s, pattern, 0) {
        var i :| MatchesAt(s, pattern, i);
        assert MatchesAt(s[1..], pattern, i - 1) by {
          forall k | 0 <= k < |pattern|
            ensures Lower(s[1..][i - 1 + k]) == pattern[k]
          {
            assert s[1..][i - 1 + k] == s[i + k];
          }
        }
      }
      if MentionsIgnoringCase(s[1..], pattern) {
        var j :| MatchesAt(s[1..], pattern, j);
        assert MatchesAt(s, pattern, j + 1) by {
          forall k | 0 <= k < |pattern|
            ensures Lower(s[j + 1 + k]) == pattern[k]
          {
            assert s[1..][j + k] == s[j + 1 + k];
          }
        }
      }
    }
  }

  // ---------------------------------------------------------------------------
  // Classification
  // ---------------------------------------------------------------------------

  /** `detectType`: the first pattern group that matches decides. */
  function DetectType(netIf: Interface): NetworkType
  {
    var name := LowerStr(netIf.name);
    var displayName := LowerStr(netIf.displayName);
    if Contains(name, "wlan") || Contains(name, "wifi") || Contains(displayName, "wi-fi") then
      Wifi
    else if Contains(name, "eth") || Contains(displayName, "ethernet") || StartsWith(name, "en") then
      Ethernet
    else if Contains(name, "ppp") || Contains(name, "wwan") ||
            Contains(displayName, "mobile") || Contains(displayName, "cellular") ||
            Contains(displayName, "broadband") then
      Mobile
    else
      Unknown
  }

  /**
    Each interface gets exactly the category of the first pattern group it
    matches: wifi beats ethernet and mobile, ethernet beats mobile, and
    unknown is left for an interface that matches nothing.
  */
  lemma DetectTypeClassifies(netIf: Interface)
    ensures DetectType(netIf) == Wifi <==> WifiPattern(netIf)
    ensures DetectType(netIf) == Ethernet <==> !WifiPattern(netIf) && EthernetPattern(netIf)
    ensures DetectType(netIf) == Mobile <==>
              !WifiPattern(netIf) && !EthernetPattern(netIf) && MobilePattern(netIf)
    ensures DetectType(netIf) == Unknown <==>
              !WifiPattern(netIf) && !EthernetPattern(netIf) && !MobilePattern(netIf)
  {
    var n, d := netIf.name, netIf.displayName;
    ContainsLowered(n, "wlan");
    ContainsLowered(n, "wifi");
    ContainsLowered(d, "wi-fi");
    ContainsLowered(n, "eth");
    ContainsLowered(d, "ethernet");
    StartsWithLowered(n, "en");
    ContainsLowered(n, "ppp");
    ContainsLowered(n, "wwan");
    ContainsLowered(d, "mobile");
    ContainsLowered(d, "cellular");
    ContainsLowered(d, "broadband");
  }

  lemma LowerStrIdempotent(s: string)
    ensures LowerStr(LowerStr(s)) == LowerStr(s)
  {
  }

  /** Classification does not see letter case: lowering both names first changes nothing. */
  lemma DetectTypeIgnoresCase(netIf: Interface)
    ensures DetectType(netIf.(name := LowerStr(netIf.name), displayName := LowerStr(netIf.displayName)))
            == DetectType(netIf)
  {
    LowerStrIdempotent(netIf.name);
    LowerStrIdempotent(netIf.displayName);
  }

  /** An interface called `wlan0` is wifi even when its display name says ethernet. */
  lemma WifiTakesPriority(displayName: string, up: bool, loopback: bool)
    ensures DetectType(Interface("wlan0", displayName, up, loopback)) == Wifi
  {
  }

  // ---------------------------------------------------------------------------
  // Enumeration and the primary type
  // ---------------------------------------------------------------------------

  /** Some interface of a successful enumeration is up and not a loopback. */
  ghost predicate HasActive(enumeration: Option<seq<Interface>>)
  {
    enumeration.Some? && exists netIf :: netIf in enumeration.value && IsActive(netIf)
  }

  /**
    `t` is a value the primary type may take: the type of some active
    interface, or unknown when there is none. Which active interface comes
    first depends on hash-map iteration order, so only membership is promised.
  */
  ghost predicate IsPrimaryCandidate(enumeration: Option<seq<Interface>>, t: NetworkType)
  {
    if HasActive(enumeration) then
      exists netIf :: netIf in enumeration.value && IsActive(netIf) && t == DetectType(netIf)
    else
      t == Unknown
  }

  /**
    `getActiveNetworkTypes`. `enumeration` is what the operating system lists,
    or `None` when listing threw; the exception is swallowed and the map stays
    empty.
  */
  method GetActiveNetworkTypes(enumeration: Option<seq<Interface>>)
    returns (result: map<Interface, NetworkType>)
    ensures enumeration.None? ==> result == map[]
    ensures forall netIf :: netIf in result <==>
              enumeration.Some? && netIf in enumeration.value && IsActive(netIf)
    ensures forall netIf :: netIf in result ==> result[netIf] == DetectType(netIf)
  {
    result := map[];
    if enumeration.None? {
      return;
    }
    var interfaces := enumeration.value;
    var n := 0;
    while n < |interfaces|
      invariant 0 <= n <= |interfaces|
      invariant forall netIf :: netIf in result <==> netIf in interfaces[..n] && IsActive(netIf)
      invariant forall netIf :: netIf in result ==> result[netIf] == DetectType(netIf)
    {
      var netIf := interfaces[n];
      assert interfaces[..n + 1] == interfaces[..n] + [netIf];
      n := n + 1;
      if !netIf.up || netIf.loopback {
        continue;
      }
      result := result[netIf := DetectType(netIf)];
    }
    assert interfaces[..n] == interfaces;
  }

  /** `getPrimaryNetworkType`: the value of the map's first entry, or unknown for an empty map. */
  method GetPrimaryNetworkType(enumeration: Option<seq<Interface>>) returns (t: NetworkType)
    ensures IsPrimaryCandidate(enumeration, t)
    ensures !HasActive(enumeration) ==> t == Unknown
  {
    var active := GetActiveNetworkTypes(enumeration);
    if active != map[] {
      var first :| first in active;
      t := active[first];
    } else {
      t := Unknown;
    }
  }
}

/** Searching the local network for a bridge, completing the search with the
    first bridge found, and cancelling it. */
module BridgeDiscovery {
  import opened Wrappers
  import opened HueTypes
  import opened HueState
  import Heartbeat

  /** One entry of the SDK's search result: a bridge id and an IP address, each
      of a type the SDK does not promise. */
  type FoundEntry = (SdkValue, SdkValue)

  /** The search object the manager configures: UPnP, portal and IP-range
      search all switched on. */
  const SearchAllMethods: SdkCall := StartSearch(true, true, true)

  /** Starts a search: the heartbeat is stopped first, then a new search object
      is made and started. The bridges and the connection are left as they were. */
  function SearchForLocalBridge(s: ManagerState): (r: Step)
    ensures !r.after.heartbeatOn
    ensures r.after.searchActive
    ensures r.after.connectedBridge == s.connectedBridge && r.after.bridgeToUse == s.bridgeToUse
    ensures r.calls == [DisableLocalConnection, SearchAllMethods]
  {
    var stopped := Heartbeat.DisableLocalHeartbeat(s);
    Step(stopped.after.(searchActive := true), stopped.calls + [SearchAllMethods])
  }

  /** The bridge the search adopts: the first entry, provided both of its fields
      are strings; no later entry is looked at. */
  function FirstBridge(found: seq<FoundEntry>): (r: Option<HueBridge>)
    ensures r.Some? <==> |found| > 0 && found[0].0.Str? && found[0].1.Str?
    ensures r.Some? ==> r.value == HueBridge(found[0].0.text, found[0].1.text)
  {
    if |found| == 0 then None
    else
      match (AsString(found[0].0), AsString(found[0].1))
      case (Some(id), Some(ip)) => Some(HueBridge(id, ip))
      case _ => None
  }

  /** What the search's completion handler leaves behind and hands to its caller. */
  datatype SearchOutcome = SearchOutcome(after: ManagerState, calls: seq<SdkCall>, bridge: Option<HueBridge>)

  /** The completion handler of a search. When the first result is usable the
      bridge becomes the bridge to use, the local connection is switched on and
      the bridge is returned; otherwise `nil` is returned and nothing changes. */
  function CompleteSearch(s: ManagerState, found: seq<FoundEntry>): (r: SearchOutcome)
    ensures r.bridge.Some? <==> |found| > 0 && found[0].0.Str? && found[0].1.Str?
    ensures r.bridge.None? ==> r.after == s && r.calls == []
    ensures r.bridge.Some? ==>
      && r.bridge.value == HueBridge(found[0].0.text, found[0].1.text)
      && r.after.bridgeToUse == r.bridge
      && r.after.heartbeatOn
      && r.calls == [SetBridgeToUse(r.bridge.value.id, r.bridge.value.ip), EnableLocalConnection]
    ensures r.after.connectedBridge == s.connectedBridge && r.after.searchActive == s.searchActive
  {
    match FirstBridge(found)
    case Some(b) =>
      SearchOutcome(s.(bridgeToUse := Some(b), heartbeatOn := true),
                    [SetBridgeToUse(b.id, b.ip), EnableLocalConnection], Some(b))
    case None =>
      SearchOutcome(s, [], None)
  }

  /** Cancels the search and drops the search object. The SDK is asked to cancel
      only when there is a search object to ask. */
  function CancelBridgeSearch(s: ManagerState): (r: Step)
    ensures !r.after.searchActive
    ensures r.after.connectedBridge == s.connectedBridge && r.after.bridgeToUse == s.bridgeToUse
    ensures r.after.heartbeatOn == s.heartbeatOn
    ensures CancelSearch in r.calls <==> s.searchActive
    ensures |r.calls| <= 1
  {
    Step(s.(searchActive := false), if s.searchActive then [CancelSearch] else [])
  }

  /** Results after the first never influence the completion. */
  lemma LaterResultsIgnored(s: ManagerState, found: seq<FoundEntry>, rest: seq<FoundEntry>)
    requires |found| > 0
    ensures CompleteSearch(s, [found[0]] + rest) == CompleteSearch(s, found)
  {
  }

  /** A first result that is not a pair of strings hides every later bridge,
      however usable. */
  lemma UnusableFirstHidesRest(s: ManagerState, first: FoundEntry, rest: seq<FoundEntry>)
    requires !(first.0.Str? && first.1.Str?)
    ensures CompleteSearch(s, [first] + rest).bridge == None
    ensures CompleteSearch(s, [first] + rest).after == s
  {
  }

  /** A search that finds nothing ends with no bridge, the bridge to use as it
      was before the search, and the heartbeat still off. */
  lemma EmptySearchLeavesHeartbeatOff(s: ManagerState)
    ensures var started := SearchForLocalBridge(s).after;
            var done := CompleteSearch(started, []);
            && done.bridge == None
            && done.after.bridgeToUse == s.bridgeToUse
            && !done.after.heartbeatOn
  {
  }

  /** With two bridges "A" and "B" found, in that order, "A" is adopted. */
  lemma FirstOfTwoBridges(s: ManagerState)
    ensures var found := [(Str("A"), Str("10.0.0.2")), (Str("B"), Str("10.0.0.3"))];
            CompleteSearch(s, found).bridge == Some(HueBridge("A", "10.0.0.2"))
  {
  }

  /** Cancelling twice is cancelling once: the second call neither changes the
      state nor reaches the SDK. */
  lemma CancelIdempotent(s: ManagerState)
    ensures var once := CancelBridgeSearch(s).after;
            CancelBridgeSearch(once) == Step(once, [])
  {
  }

  /** Unlike the heartbeat operations, the completion switches the local
      connection on without looking at the connected bridge, so it can leave the
      heartbeat running while no bridge is connected. */
  lemma CompletionMayRunHeartbeatUnconnected()
    ensures var s := ManagerState(None, false, None, true);
            && HeartbeatGuarded(s)
            && !HeartbeatGuarded(CompleteSearch(s, [(Str("001788fffe"), Str("192.168.1.20"))]).after)
  {
  }
}

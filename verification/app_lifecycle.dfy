/** The application's lifecycle hooks, restated as calls of the heartbeat
    operations, and the events that can reach the manager's state. */
module AppLifecycle {
  import opened Wrappers
  import opened HueState
  import Heartbeat
  import BridgeDiscovery

  /** On launch the heartbeat is started if a bridge is already connected. */
  function DidFinishLaunching(s: ManagerState): (r: Step)
    ensures r == Heartbeat.EnableLocalHeartbeat(s)
  {
    if s.connectedBridge != None then Heartbeat.EnableLocalHeartbeat(s) else Step(s, [])
  }

  /** Entering the background stops the heartbeat. */
  function DidEnterBackground(s: ManagerState): (r: Step)
    ensures !r.after.heartbeatOn && SameExceptHeartbeat(s, r.after)
  {
    Heartbeat.DisableLocalHeartbeat(s)
  }

  /** Returning to the foreground starts it again, when a bridge is connected. */
  function WillEnterForeground(s: ManagerState): (r: Step)
    ensures SameExceptHeartbeat(s, r.after)
    ensures r.after.heartbeatOn <==> s.heartbeatOn || s.connectedBridge.Some?
  {
    Heartbeat.EnableLocalHeartbeat(s)
  }

  /** A round trip through the background leaves the heartbeat running exactly
      when a bridge is connected, and the rest of the state as it was. */
  lemma BackgroundForegroundRoundTrip(s: ManagerState)
    ensures var t := WillEnterForeground(DidEnterBackground(s).after).after;
            && SameExceptHeartbeat(s, t)
            && (t.heartbeatOn <==> s.connectedBridge.Some?)
  {
  }

  /** The events that change the manager's state other than a search
      completing. */
  datatype Event = Launch | Background | Foreground | SearchStarted | SearchCancelled

  function Apply(s: ManagerState, e: Event): ManagerState
  {
    match e
    case Launch => DidFinishLaunching(s).after
    case Background => DidEnterBackground(s).after
    case Foreground => WillEnterForeground(s).after
    case SearchStarted => BridgeDiscovery.SearchForLocalBridge(s).after
    case SearchCancelled => BridgeDiscovery.CancelBridgeSearch(s).after
  }

  /** The state after a series of events, applied first to last. */
  function Run(s: ManagerState, events: seq<Event>): ManagerState
    decreases |events|
  {
    if |events| == 0 then s else Run(Apply(s, events[0]), events[1..])
  }

  /** No series of lifecycle, search-start or cancel events sets the heartbeat
      running without a connected bridge, and none of them changes the
      connected bridge. */
  lemma {:induction false} EventsKeepGuard(s: ManagerState, events: seq<Event>)
    requires HeartbeatGuarded(s)
    ensures HeartbeatGuarded(Run(s, events))
    ensures Run(s, events).connectedBridge == s.connectedBridge
    decreases |events|
  {
    if |events| > 0 {
      var t := Apply(s, events[0]);
      assert HeartbeatGuarded(t) && t.connectedBridge == s.connectedBridge;
      EventsKeepGuard(t, events[1..]);
    }
  }
}

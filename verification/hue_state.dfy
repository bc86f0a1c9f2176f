/** The state the Hue manager reaches through the Philips Hue SDK, reduced to
    what its operations test or change, and the SDK calls they issue. */
module HueState {
  import opened Wrappers
  import opened HueTypes

  /** `connectedBridge` is the configuration in the SDK's resources cache;
      `heartbeatOn` is the SDK's local connection (the heartbeat);
      `bridgeToUse` is the bridge last handed to `setBridgeToUseWithId`;
      `searchActive` holds while the manager keeps a bridge search object. */
  datatype ManagerState = ManagerState(
    connectedBridge: Option<BridgeConfig>,
    heartbeatOn: bool,
    bridgeToUse: Option<HueBridge>,
    searchActive: bool)

  /** One call from the manager into the SDK. */
  datatype SdkCall =
    | EnableLocalConnection
    | DisableLocalConnection
    | StartSearch(upnp: bool, portal: bool, ipAddressScan: bool)
    | CancelSearch
    | SetBridgeToUse(id: string, ip: string)

  /** The outcome of one manager operation: the state it leaves and the SDK
      calls it made, in order. */
  datatype Step = Step(after: ManagerState, calls: seq<SdkCall>)

  /** The rule `enableLocalHeartbeat` enforces (HueManager.swift:113-114): the
      heartbeat runs only with a connected bridge. */
  predicate HeartbeatGuarded(s: ManagerState) {
    s.heartbeatOn ==> s.connectedBridge.Some?
  }

  /** Two states that differ at most in whether the heartbeat runs. */
  predicate SameExceptHeartbeat(s: ManagerState, t: ManagerState) {
    && s.connectedBridge == t.connectedBridge
    && s.bridgeToUse == t.bridgeToUse
    && s.searchActive == t.searchActive
  }
}

# Hueminate's Hue manager, modelled in Dafny

Hueminate is an iOS app that finds a Philips Hue bridge on the local network,
pairs with it and randomizes the colours of the lights it controls. All of the
app's logic lives in one coordinator, `HueManager`, which drives the Philips Hue
SDK. This project models that coordinator with the SDK replaced by abstract
state:

- `HueState.ManagerState` holds what the manager reads or changes through the SDK:
  - the connected bridge's configuration (the SDK's resources cache);
  - whether the local heartbeat runs;
  - the bridge handed to the SDK as the bridge to use;
  - whether a bridge search object is held.
- Every operation returns the state it leaves and the list of SDK calls it makes.

The modules follow the manager's sections:

- `HueTypes`: the `HueBridge` and `HueColor` structures and the colour constants (65535, 254, 254).
- `Heartbeat`: `enableLocalHeartbeat`, guarded by the connected bridge, and `disableLocalHeartbeat`, unconditional.
- `BridgeDiscovery`: `searchForLocalBridge`, its completion handler and `cancelBridgeSearch`.
  The completion adopts the first result only, and only if its id and address are both strings.
- `AppLifecycle`: the app delegate's launch, background and foreground hooks, restated as heartbeat calls.
  It also holds a lemma over any series of such events.
- `LightControl`: `randomizeAllLights`.
  - It is a loop over the lights that skips every light not on.
  - Each lit light gets one update with hue `r % 65535` and full saturation and brightness.
  - Each update's completion handler logs only its own errors.
- `ColorConversion`: `getHueColor`, which scales HSB components to the lights' maxima, over `real`.

Behaviour of the code a reader might not expect; the model keeps it as written:

- The completion handler switches the local connection on directly, without the
  connected-bridge test of `enableLocalHeartbeat`. If adopting a bridge does not
  itself connect it, the heartbeat can then run while no bridge is connected
  (`BridgeDiscovery.CompletionMayRunHeartbeatUnconnected`).
  Every other operation keeps that rule (`AppLifecycle.EventsKeepGuard`).
- Enabling the heartbeat twice reaches the same state as enabling it once.
  The SDK is still called twice, not once, when a bridge is connected.
- `randomizeAllLights` returns nothing: there is no batch result with counts.
  Errors are only logged, per light, under the light's name or "light".
- `getHueColor` does not round to integers: the components stay `CGFloat`, here `real`.
- Randomized hues lie in [0, 65534], because the code takes the remainder by 65535.
- There is no pairing state machine. Push-link authentication is a single SDK call.
  The 30-second window, the outcome events and the timeout all belong to the SDK and the view controller.
- A search completion is not ignored after `cancelBridgeSearch`: the manager has no such check.
  The completion also does not drop the search object.

## Model

| member | source | states |
|---|---|---|
| HueTypes.AsString | Hueminate/Managers/HueManager.swift:147 | a conditional cast to `String` succeeds exactly for string values and yields their text |
| Heartbeat.EnableLocalHeartbeat | Hueminate/Managers/HueManager.swift:111-119 | with no connected bridge nothing changes and the SDK is not called; with one, the heartbeat ends up on after one `enableLocalConnection` call; bridges and search are untouched |
| Heartbeat.DisableLocalHeartbeat | Hueminate/Managers/HueManager.swift:124-127 | whatever the prior state, the heartbeat ends off after one `disableLocalConnection` call and nothing else changes |
| Heartbeat.EnableIdempotent | Hueminate/Managers/HueManager.swift:111-119 | enabling twice gives the state enabling once gives; the second call still reaches the SDK when a bridge is connected |
| Heartbeat.DisableIdempotent | Hueminate/Managers/HueManager.swift:124-127 | disabling twice gives the state disabling once gives |
| Heartbeat.HeartbeatOperationsKeepGuard | Hueminate/Managers/HueManager.swift:111-127 | neither heartbeat operation can leave the heartbeat on without a connected bridge if it was not so before |
| Heartbeat.DisableUndoesEnable | Hueminate/Managers/HueManager.swift:111-127 | disable after enable restores a state whose heartbeat was off; enable after disable leaves the heartbeat on exactly when a bridge is connected |
| BridgeDiscovery.SearchForLocalBridge | Hueminate/Managers/HueManager.swift:132-141 | the heartbeat is stopped before the search starts, the search uses UPnP, portal and IP scan, a search is then held, and the bridges are untouched |
| BridgeDiscovery.FirstBridge | Hueminate/Managers/HueManager.swift:147 | a bridge is chosen exactly when the first result's id and ip are both strings, and it carries exactly those strings |
| BridgeDiscovery.CompleteSearch | Hueminate/Managers/HueManager.swift:141-158 | on a usable first result that bridge is returned, becomes the bridge to use and the heartbeat is switched on; otherwise `nil` is returned, the state is unchanged and the SDK is not called |
| BridgeDiscovery.CancelBridgeSearch | Hueminate/Managers/HueManager.swift:164-168 | no search is held afterwards; the SDK is asked to cancel exactly when a search was held; heartbeat and bridges are untouched |
| BridgeDiscovery.LaterResultsIgnored | Hueminate/Managers/HueManager.swift:147 | the completion depends on the first result only |
| BridgeDiscovery.UnusableFirstHidesRest | Hueminate/Managers/HueManager.swift:147-156 | a first result whose fields are not both strings gives `nil` and no change, even when later results are usable |
| BridgeDiscovery.EmptySearchLeavesHeartbeatOff | Hueminate/Managers/HueManager.swift:134-156 | starting a search that finds nothing ends with `nil`, the previous bridge to use, and the heartbeat off |
| BridgeDiscovery.FirstOfTwoBridges | Hueminate/Managers/HueManager.swift:146-151 | with bridges "A" then "B" found, "A" is adopted |
| BridgeDiscovery.CancelIdempotent | Hueminate/Managers/HueManager.swift:164-168 | a second cancel changes nothing and does not call the SDK |
| BridgeDiscovery.CompletionMayRunHeartbeatUnconnected | Hueminate/Managers/HueManager.swift:147-150 | a completion that adopts a bridge can turn the heartbeat on from a state with no connected bridge |
| AppLifecycle.DidFinishLaunching | Hueminate/AppDelegate.swift:36-40 | the launch hook's own connected-bridge test adds nothing: launching is exactly enabling the heartbeat |
| AppLifecycle.DidEnterBackground | Hueminate/AppDelegate.swift:50-53 | entering the background stops the heartbeat and nothing else |
| AppLifecycle.WillEnterForeground | Hueminate/AppDelegate.swift:55-58 | returning to the foreground starts the heartbeat only when a bridge is connected |
| AppLifecycle.BackgroundForegroundRoundTrip | Hueminate/AppDelegate.swift:50-58 | after background then foreground the heartbeat runs exactly when a bridge is connected, everything else as before |
| AppLifecycle.EventsKeepGuard | Hueminate/Managers/HueManager.swift:111-168 | any series of launch, background, foreground, search-start and cancel events keeps the heartbeat off while no bridge is connected, and never changes the connected bridge |
| LightControl.IsLit | Hueminate/Managers/HueManager.swift:198 | a light without a state, or whose state's `on` is missing, is skipped; one with a state is kept exactly when `on` equals 1 |
| LightControl.Lit | Hueminate/Managers/HueManager.swift:195-201 | the lights kept by the walk are all on and all among the lights, never more of them than lights |
| LightControl.RandomWrite | Hueminate/Managers/HueManager.swift:203-207 | an update addresses its own light, has hue `r mod 65535` in [0, 65534], and saturation and brightness 254 |
| LightControl.RandomizeAllLights | Hueminate/Managers/HueManager.swift:190-219 | one update per lit light, in visiting order; the k-th update uses the k-th random draw; every hue is below 65535 and saturation and brightness are 254 |
| LightControl.LitExactly | Hueminate/Managers/HueManager.swift:195-201 | a light is written exactly when it is among the lights and has a state with `on == 1`; off lights and lights without state get nothing |
| LightControl.LitAppend | Hueminate/Managers/HueManager.swift:195-201 | the walk preserves order: the lit lights of two runs are those of the first followed by those of the second |
| LightControl.NoneLitNoWrites | Hueminate/Managers/HueManager.swift:197-201 | when no light is on, no update is sent |
| LightControl.LogName | Hueminate/Managers/HueManager.swift:215 | the log names a light by its name when it has one, and "light" otherwise |
| LightControl.ErrorLog | Hueminate/Managers/HueManager.swift:210-217 | at most one log entry per update, and none when every update succeeds |
| LightControl.ErrorLogAppend | Hueminate/Managers/HueManager.swift:210-217 | the log of a batch is the concatenation of the logs of its parts, so no reply affects what is reported for another update |
| LightControl.FailureLogged | Hueminate/Managers/HueManager.swift:212-216 | every failed update is logged with its light's name, or "light", and its own errors |
| LightControl.OnlyFailuresLogged | Hueminate/Managers/HueManager.swift:212-216 | every log entry names the light of some update whose reply failed and repeats that reply's errors; a successful update is never logged |
| LightControl.ErrorLogSnoc | Hueminate/Managers/HueManager.swift:210-217 | one more update adds at most its own entry and leaves the earlier entries unchanged |
| ColorConversion.GetHueColor | Hueminate/Managers/HueManager.swift:231-253 | `nil` exactly when the conversion fails; components in [0, 1] give a colour within [0, 65535] × [0, 254] × [0, 254] that is not the unset colour |
| ColorConversion.ToNormalized | Hueminate/Managers/HueManager.swift:42-57 | dividing by the maxima maps the lights' ranges back into [0, 1] |
| ColorConversion.ScalingRoundTrip | Hueminate/Managers/HueManager.swift:243-248 | scaling and dividing by the maxima are inverse in both directions, apart from alpha |
| ColorConversion.AlphaIgnored | Hueminate/Managers/HueManager.swift:237-248 | the reported alpha does not influence the result |
| ColorConversion.ScalingMonotone | Hueminate/Managers/HueManager.swift:243-245 | scaling keeps the order of each component |

## Left out

- The Philips Hue SDK itself: network discovery, the resources cache, HTTP writes and the local connection's polling. Its state is the four fields of `ManagerState`. The SDK calls are only recorded.
- The SDK's set-up in the initializer and debug logging. `hueSDK` is always set after initialization, so its optional chaining never skips a call.
- The notification register and deregister wrappers and `startPushLinkAuthentication`: each is a single pass-through call into the SDK.
- `UIColor.getHue`'s RGB to HSB conversion: its result is an input to `ColorConversion.GetHueColor`. Its failure conditions are not visible.
- `CGFloat` rounding: components are exact reals.
- `arc4random`: its successive results are the parameter `draw` of `LightControl.RandomizeAllLights`.
- Timing and ordering of asynchronous callbacks. The search completion and each update's completion are separate functions, applied to whatever the SDK reports.
- Whether the SDK still delivers a search completion after `cancelSearch` is SDK behaviour and not visible.
- The order in which the SDK's dictionaries of search results and of lights are visited: the model takes it as the order of a sequence.
- `MWLog` output: `ErrorLog` models the messages passed to `MWLog`, as entries rather than text. `MWLog` prints only in debug builds (AppDelegate.swift:80-84), so in release builds these entries reach no output.
- LightControl.RandomWrite: `Int` is taken to be 64 bits, so `Int(arc4random())` never traps. On a 32-bit device Swift's conversion traps for a draw of 2^31 or more; the model does not show that trap.
- BridgeDiscovery.CompletionMayRunHeartbeatUnconnected: assumes `setBridgeToUseWithId` leaves the SDK's resources cache, and so `connectedBridge`, unchanged. The source does not show what the SDK does there. It shows only that the completion calls `enableLocalConnection` without the connected-bridge test `enableLocalHeartbeat` makes.
- The view controllers, navigation and UI extensions: they present state and hold no manager logic.

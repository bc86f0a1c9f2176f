/** The value types of the Hue manager: the two structures it declares, the
    colour constants of the lights, and the shapes in which the Philips Hue SDK
    hands values over. */
module HueTypes {
  import opened Wrappers

  /** A bridge found by discovery before it is connected to the app: all that is
      known of it is its bridge id and its IP address. */
  datatype HueBridge = HueBridge(id: string, ip: string)

  /** A colour as the lights represent it: hue, saturation and brightness in the
      lights' own ranges. A component equal to `Unset` has not been given. */
  datatype HueColor = HueColor(hue: real, saturation: real, brightness: real)

  const Unset: real := -1.0

  /** The value of a freshly constructed `HueColor`. */
  const UnsetColor: HueColor := HueColor(Unset, Unset, Unset)

  // The ranges the lights accept (HueManager.swift stores them as CGFloat; here as reals).
  const MinHue: real := 0.0
  const MaxHue: real := 65535.0
  const MinSaturation: real := 0.0
  const MaxSaturation: real := 254.0
  const MinBrightness: real := 0.0
  const MaxBrightness: real := 254.0

  /** What `arc4random()` returns. */
  newtype UInt32 = x: int | 0 <= x < 0x1_0000_0000

  /** A value of unknown Objective-C type as the SDK hands it over; only the
      ones that are strings can be used as a bridge id or address. */
  datatype SdkValue = Str(text: string) | NotAString

  /** Swift's conditional cast `v as? String`. */
  function AsString(v: SdkValue): (r: Option<string>)
    ensures r.Some? <==> v.Str?
    ensures v.Str? ==> r.value == v.text
  {
    match v
    case Str(t) => Some(t)
    case NotAString => None
  }

  /** The configuration of the bridge the app is connected to, as the SDK's
      resources cache keeps it. The manager only tests whether there is one. */
  datatype BridgeConfig = BridgeConfig(identifier: string, ipAddress: string, name: string)
}

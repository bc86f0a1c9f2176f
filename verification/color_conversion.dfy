/** Turning a colour into the lights' hue, saturation and brightness ranges. */
module ColorConversion {
  import opened Wrappers
  import opened HueTypes

  /** The components `UIColor.getHue` reports, each normally in [0, 1]. */
  datatype Hsb = Hsb(hue: real, saturation: real, brightness: real, alpha: real)

  /** Components that a colour space conversion can report. */
  predicate Normalized(c: Hsb) {
    0.0 <= c.hue <= 1.0 && 0.0 <= c.saturation <= 1.0 && 0.0 <= c.brightness <= 1.0
  }

  /** A colour within the ranges the lights accept. */
  predicate InDeviceRange(c: HueColor) {
    && MinHue <= c.hue <= MaxHue
    && MinSaturation <= c.saturation <= MaxSaturation
    && MinBrightness <= c.brightness <= MaxBrightness
  }

  /** Scales the reported components to the lights' maxima; `nil` when the
      colour could not be converted. `conversion` is the outcome of
      `UIColor.getHue`: `None` when it reports failure. */
  function GetHueColor(conversion: Option<Hsb>): (r: Option<HueColor>)
    ensures r.None? <==> conversion.None?
    ensures conversion.Some? && Normalized(conversion.value) ==> InDeviceRange(r.value) && r.value != UnsetColor
  {
    match conversion
    case None => None
    case Some(c) => Some(HueColor(c.hue * MaxHue, c.saturation * MaxSaturation, c.brightness * MaxBrightness))
  }

  /** The inverse scaling: a light colour back to [0, 1] components. */
  function ToNormalized(c: HueColor, alpha: real): (r: Hsb)
    ensures InDeviceRange(c) ==> Normalized(r)
  {
    Hsb(c.hue / MaxHue, c.saturation / MaxSaturation, c.brightness / MaxBrightness, alpha)
  }

  /** Scaling loses nothing but alpha: scaling back gives the reported
      components, and every colour in the lights' ranges is the scaling of
      exactly one normalized colour. */
  lemma ScalingRoundTrip(c: Hsb, h: HueColor)
    ensures ToNormalized(GetHueColor(Some(c)).value, c.alpha) == c
    ensures GetHueColor(Some(ToNormalized(h, 1.0))) == Some(h)
  {
  }

  /** Alpha plays no part in the result. */
  lemma AlphaIgnored(c: Hsb, alpha: real)
    ensures GetHueColor(Some(c.(alpha := alpha))) == GetHueColor(Some(c))
  {
  }

  /** Scaling keeps the order of each component, so a lighter, more saturated
      or later-hued colour stays so on the lights. */
  lemma ScalingMonotone(c: Hsb, d: Hsb)
    requires c.hue <= d.hue && c.saturation <= d.saturation && c.brightness <= d.brightness
    ensures var x := GetHueColor(Some(c)).value;
            var y := GetHueColor(Some(d)).value;
            x.hue <= y.hue && x.saturation <= y.saturation && x.brightness <= y.brightness
  {
  }
}

/** Randomizing the colour of every light that is on. */
module LightControl {
  import opened Wrappers
  import opened HueTypes

  /** The last known state of a light; `on` is an SDK number that may be missing. */
  datatype LightState = LightState(on: Option<int>)

  /** A light from the SDK's resources cache. */
  datatype Light = Light(identifier: string, name: Option<string>, lightState: Option<LightState>)

  /** A light is randomized only when it has a state whose `on` equals 1. */
  function IsLit(l: Light): (lit: bool)
    ensures l.lightState.None? ==> !lit
    ensures l.lightState.Some? && l.lightState.value.on.None? ==> !lit
    ensures l.lightState.Some? && l.lightState.value.on.Some? ==> (lit <==> l.lightState.value.on.value == 1)
  {
    l.lightState.Some? && l.lightState.value.on == Some(1)
  }

  /** One state update sent to the bridge for one light. The light's name is
      kept for the error message of its completion handler. */
  datatype LightWrite = LightWrite(lightId: string, lightName: Option<string>, hue: int, saturation: int, brightness: int)

  /** The integral maxima the update uses (`Int(maxHue)` and so on; truncation
      is the floor for these positive constants). */
  const HueModulus: int := MaxHue.Floor
  const FullSaturation: int := MaxSaturation.Floor
  const FullBrightness: int := MaxBrightness.Floor

  /** The lights that are on, in the order they are visited. */
  function Lit(lights: seq<Light>): (r: seq<Light>)
    ensures |r| <= |lights|
    ensures forall k :: 0 <= k < |r| ==> IsLit(r[k]) && r[k] in lights
    decreases |lights|
  {
    if |lights| == 0 then []
    else
      var init := Lit(lights[..|lights| - 1]);
      var last := lights[|lights| - 1];
      if IsLit(last) then init + [last] else init
  }

  /** The update for one lit light from one random draw: a hue below the hue
      maximum, full saturation and full brightness. */
  function RandomWrite(l: Light, draw: UInt32): (w: LightWrite)
    ensures w.lightId == l.identifier && w.lightName == l.name
    ensures 0 <= w.hue < 65535 && MinHue <= w.hue as real < MaxHue
    ensures w.hue == draw as int % 65535
    ensures w.saturation == 254 && w.saturation as real == MaxSaturation
    ensures w.brightness == 254 && w.brightness as real == MaxBrightness
  {
    LightWrite(l.identifier, l.name, draw as int % HueModulus, FullSaturation, FullBrightness)
  }

  /** Walks the lights, skips every light that is not on, and emits one update
      per lit light. `draw(k)` is the k-th value `arc4random()` returns; a value
      is drawn only for a lit light. */
  method RandomizeAllLights(lights: seq<Light>, draw: nat -> UInt32) returns (writes: seq<LightWrite>)
    ensures |writes| == |Lit(lights)|
    ensures forall k :: 0 <= k < |writes| ==> writes[k] == RandomWrite(Lit(lights)[k], draw(k))
    ensures forall w :: w in writes ==> 0 <= w.hue < 65535 && w.saturation == 254 && w.brightness == 254
  {
    writes := [];
    var i := 0;
    while i < |lights|
      invariant 0 <= i <= |lights|
      invariant |writes| == |Lit(lights[..i])|
      invariant forall k :: 0 <= k < |writes| ==> writes[k] == RandomWrite(Lit(lights[..i])[k], draw(k))
    {
      var light := lights[i];
      assert lights[..i + 1][..i] == lights[..i];
      if IsLit(light) {
        writes := writes + [RandomWrite(light, draw(|writes|))];
      }
      i := i + 1;
    }
    assert lights[..i] == lights;
  }

  /** A light is written exactly when it appears in the walk and is on. */
  lemma {:induction false} LitExactly(lights: seq<Light>, l: Light)
    ensures l in Lit(lights) <==> l in lights && IsLit(l)
    decreases |lights|
  {
    if |lights| > 0 {
      var init := lights[..|lights| - 1];
      LitExactly(init, l);
      assert lights == init + [lights[|lights| - 1]];
    }
  }

  /** The walk is order-preserving: the lit lights of two runs of lights are the
      lit lights of the first followed by those of the second. */
  lemma {:induction false} LitAppend(a: seq<Light>, b: seq<Light>)
    ensures Lit(a + b) == Lit(a) + Lit(b)
    decreases |b|
  {
    if |b| > 0 {
      var b' := b[..|b| - 1];
      assert (a + b)[..|a + b| - 1] == a + b';
      LitAppend(a, b');
    } else {
      assert a + b == a;
    }
  }

  /** A run of lights none of which is on receives no update at all. */
  lemma {:induction false} NoneLitNoWrites(lights: seq<Light>)
    requires forall k :: 0 <= k < |lights| ==> !IsLit(lights[k])
    ensures Lit(lights) == []
    decreases |lights|
  {
    if |lights| > 0 {
      NoneLitNoWrites(lights[..|lights| - 1]);
    }
  }

  /** The outcome the bridge reports for one update: success, or a list of errors. */
  datatype Reply = Done | Failed(errors: seq<string>)

  /** What the completion handler logs for a failed update. */
  datatype LoggedError = LoggedError(lightName: string, errors: seq<string>)

  /** The name the log uses: the light's name, or "light" when it has none. */
  function LogName(w: LightWrite): (name: string)
    ensures w.lightName.Some? ==> name == w.lightName.value
    ensures w.lightName.None? ==> name == "light"
  {
    w.lightName.GetOr("light")
  }

  /** What the completion handlers log, given the reply to each update. Every
      handler looks at its own reply only. */
  function ErrorLog(writes: seq<LightWrite>, replies: seq<Reply>): (log: seq<LoggedError>)
    requires |replies| == |writes|
    ensures |log| <= |writes|
    ensures (forall k :: 0 <= k < |replies| ==> replies[k] == Done) ==> log == []
    decreases |writes|
  {
    if |writes| == 0 then []
    else
      var n := |writes| - 1;
      var init := ErrorLog(writes[..n], replies[..n]);
      match replies[n]
      case Done => init
      case Failed(errs) => init + [LoggedError(LogName(writes[n]), errs)]
  }

  /** The log of one more update is the log so far followed by that update's entry. */
  lemma ErrorLogSnoc(w: seq<LightWrite>, r: seq<Reply>, x: LightWrite, y: Reply)
    requires |r| == |w|
    ensures ErrorLog(w + [x], r + [y]) == ErrorLog(w, r) + ErrorLog([x], [y])
  {
    assert (w + [x])[..|w|] == w && (r + [y])[..|r|] == r;
    assert [x][..0] == [] && [y][..0] == [];
  }

  /** Partial-failure isolation: the log of two batches sent together is the
      log of each batch on its own, so no update's reply changes what is
      reported for another. */
  lemma {:induction false} ErrorLogAppend(w1: seq<LightWrite>, r1: seq<Reply>, w2: seq<LightWrite>, r2: seq<Reply>)
    requires |r1| == |w1| && |r2| == |w2|
    ensures ErrorLog(w1 + w2, r1 + r2) == ErrorLog(w1, r1) + ErrorLog(w2, r2)
    decreases |w2|
  {
    if |w2| == 0 {
      assert w1 + w2 == w1 && r1 + r2 == r1;
    } else {
      var n := |w2| - 1;
      var x, y := w2[n], r2[n];
      assert w2 == w2[..n] + [x] && r2 == r2[..n] + [y];
      assert w1 + w2 == (w1 + w2[..n]) + [x] && r1 + r2 == (r1 + r2[..n]) + [y];
      ErrorLogAppend(w1, r1, w2[..n], r2[..n]);
      ErrorLogSnoc(w1 + w2[..n], r1 + r2[..n], x, y);
      ErrorLogSnoc(w2[..n], r2[..n], x, y);
    }
  }

  /** Every failed update is logged under its light's name with its own errors. */
  lemma {:induction false} FailureLogged(writes: seq<LightWrite>, replies: seq<Reply>, k: nat)
    requires |replies| == |writes| && k < |writes| && replies[k].Failed?
    ensures LoggedError(LogName(writes[k]), replies[k].errors) in ErrorLog(writes, replies)
    decreases |writes|
  {
    var n := |writes| - 1;
    if k < n {
      FailureLogged(writes[..n], replies[..n], k);
    }
  }

  /** Nothing but failures is logged: every entry names the light and repeats
      the errors of some update whose reply failed. */
  lemma {:induction false} OnlyFailuresLogged(writes: seq<LightWrite>, replies: seq<Reply>, e: LoggedError)
    requires |replies| == |writes| && e in ErrorLog(writes, replies)
    ensures exists k :: 0 <= k < |writes| && replies[k] == Failed(e.errors) && LogName(writes[k]) == e.lightName
    decreases |writes|
  {
    var n := |writes| - 1;
    if e in ErrorLog(writes[..n], replies[..n]) {
      OnlyFailuresLogged(writes[..n], replies[..n], e);
      var k :| 0 <= k < n && replies[..n][k] == Failed(e.errors) && LogName(writes[..n][k]) == e.lightName;
      assert replies[k] == Failed(e.errors) && LogName(writes[k]) == e.lightName;
    } else {
      assert replies[n] == Failed(e.errors) && LogName(writes[n]) == e.lightName;
    }
  }
}

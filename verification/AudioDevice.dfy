/**
 Device selection: the mixer route for the active output devices and the input source,
 skipped when the route id has not changed; and what that leaves in the hardware over any run.
 */
module AudioDeviceRoutes {
  import opened MixerOverlay
  import opened AudioRouting
  import opened Options

  /** Output device bits; every other device is OtherOut. */
  datatype OutDevice = Speaker | WiredHeadset | WiredHeadphone | OtherOut(bit: nat)

  datatype InDevice = HeadsetMic | OtherIn(bits: nat)

  datatype Source = DefaultSource | Mic | Camcorder | VoiceRecognition | VoiceCommunication | OtherSource(id: nat)

  const OUT_DEVICE_SPEAKER: nat := 0
  const OUT_DEVICE_HEADSET: nat := 1
  const OUT_DEVICE_HEADPHONES: nat := 2
  const OUT_DEVICE_SPEAKER_AND_HEADSET: nat := 3
  const OUT_DEVICE_NONE: nat := 5
  const OUT_DEVICE_CNT: nat := 6

  const IN_SOURCE_MIC: nat := 0
  const IN_SOURCE_CAMCORDER: nat := 1
  const IN_SOURCE_VOICE_RECOGNITION: nat := 2
  const IN_SOURCE_VOICE_COMMUNICATION: nat := 3
  const IN_SOURCE_NONE: nat := 5

  /** get_output_device_id: a mask is the set of its bits. */
  function OutputDeviceId(device: set<OutDevice>): (id: nat)
    ensures id < 4 || id == OUT_DEVICE_NONE
  {
    if device == {} then OUT_DEVICE_NONE
    else if |device| == 2 then
      if device == {Speaker, WiredHeadset} || device == {Speaker, WiredHeadphone}
      then OUT_DEVICE_SPEAKER_AND_HEADSET else OUT_DEVICE_NONE
    else if |device| != 1 then OUT_DEVICE_NONE
    else if device == {Speaker} then OUT_DEVICE_SPEAKER
    else if device == {WiredHeadset} then OUT_DEVICE_HEADSET
    else if device == {WiredHeadphone} then OUT_DEVICE_HEADPHONES
    else OUT_DEVICE_NONE
  }

  /** get_input_source_id */
  function InputSourceId(source: Source): (id: nat)
    ensures id < 4 || id == IN_SOURCE_NONE
  {
    match source
    case Mic => IN_SOURCE_MIC
    case Camcorder => IN_SOURCE_CAMCORDER
    case VoiceRecognition => IN_SOURCE_VOICE_RECOGNITION
    case VoiceCommunication => IN_SOURCE_VOICE_COMMUNICATION
    case _ => IN_SOURCE_NONE
  }

  /** 1 << n */
  function Bit(n: nat): nat {
    if n == 0 then 1 else 2 * Bit(n - 1)
  }

  function RouteId(out: nat, source: nat): nat {
    Bit(source + OUT_DEVICE_CNT) + Bit(out)
  }

  /** The bits in use are distinct powers of two below 64. */
  lemma BitValue(n: nat)
    requires n < 4 || n == 5
    ensures Bit(n) == (if n == 0 then 1 else if n == 1 then 2 else if n == 2 then 4 else if n == 3 then 8 else 32)
    ensures Bit(n + OUT_DEVICE_CNT) == 64 * Bit(n)
  {
    assert Bit(n + 2) == 4 * Bit(n);
    assert Bit(n + 4) == 4 * Bit(n + 2);
    assert Bit(n + 6) == 4 * Bit(n + 4);
    assert Bit(1) == 2 && Bit(3) == 8;
  }

  /** A route id names one output and one source, and is never the initial 0. */
  lemma RouteIdInjective(out: nat, source: nat, out': nat, source': nat)
    requires (out < 4 || out == 5) && (source < 4 || source == 5)
    requires (out' < 4 || out' == 5) && (source' < 4 || source' == 5)
    ensures RouteId(out, source) == RouteId(out', source') <==> out == out' && source == source'
    ensures RouteId(out, source) != 0
  {
    hide Bit;
    BitValue(out);
    BitValue(source);
    BitValue(out');
    BitValue(source');
  }

  /** route_configs: the output and the input path for a source and an output device. */
  function RouteConfig(source: nat, out: nat): (string, string)
    requires source < 4 && out < 4
  {
    if out == OUT_DEVICE_SPEAKER_AND_HEADSET then ("speaker-and-headphones", "main-mic")
    else if source == IN_SOURCE_MIC then
      if out == OUT_DEVICE_SPEAKER then ("media-speaker", "media-main-mic")
      else if out == OUT_DEVICE_HEADSET then ("media-headphones", "media-headset-mic")
      else ("media-headphones", "media-main-mic")
    else if source == IN_SOURCE_CAMCORDER then
      if out == OUT_DEVICE_SPEAKER then ("media-speaker", "media-second-mic")
      else ("media-headphones", "media-second-mic")
    else if source == IN_SOURCE_VOICE_RECOGNITION then
      if out == OUT_DEVICE_SPEAKER then ("voice-rec-speaker", "voice-rec-main-mic")
      else if out == OUT_DEVICE_HEADSET then ("voice-rec-headphones", "voice-rec-headset-mic")
      else ("voice-rec-headphones", "voice-rec-main-mic")
    else
      if out == OUT_DEVICE_SPEAKER then ("communication-speaker", "communication-main-mic")
      else if out == OUT_DEVICE_HEADSET then ("communication-headphones", "communication-headset-mic")
      else ("communication-headphones", "communication-main-mic")
  }

  /** What a selection is made for. */
  datatype Request = Request(outDevice: set<OutDevice>, inDevice: InDevice, source: Source) {
    function Out(): (id: nat)
      ensures id < 4 || id == OUT_DEVICE_NONE
    {
      OutputDeviceId(outDevice)
    }

    function In(): (id: nat)
      ensures id < 4 || id == IN_SOURCE_NONE
    {
      InputSourceId(source)
    }

    function Id(): nat { RouteId(Out(), In()) }
  }

  /** The output and input paths a request asks for. */
  datatype Routes = Routes(output: Option<string>, input: Option<string>)

  /** The microphone follows the input device only when there is no output to go by. */
  predicate Consulted(r: Request) {
    r.In() != IN_SOURCE_NONE && r.Out() == OUT_DEVICE_NONE
  }

  function ChosenRoutes(r: Request): Routes {
    if r.In() != IN_SOURCE_NONE then
      if r.Out() != OUT_DEVICE_NONE then
        var c := RouteConfig(r.In(), r.Out());
        Routes(Some(c.0), Some(c.1))
      else
        var out := if r.inDevice == HeadsetMic then OUT_DEVICE_HEADSET else OUT_DEVICE_SPEAKER;
        Routes(None, Some(RouteConfig(r.In(), out).1))
    else if r.Out() != OUT_DEVICE_NONE then
      Routes(Some(RouteConfig(IN_SOURCE_MIC, r.Out()).0), None)
    else Routes(None, None)
  }

  // The same choice as a rule over names, for every request.

  /** The device sets with a route of their own. */
  predicate PlaysOn(device: set<OutDevice>) {
    || device == {Speaker} || device == {WiredHeadset} || device == {WiredHeadphone}
    || device == {Speaker, WiredHeadset} || device == {Speaker, WiredHeadphone}
  }

  predicate PlaysOnBoth(device: set<OutDevice>) {
    device == {Speaker, WiredHeadset} || device == {Speaker, WiredHeadphone}
  }

  predicate Records(source: Source) {
    source == Mic || source == Camcorder || source == VoiceRecognition || source == VoiceCommunication
  }

  function Prefix(source: Source): string {
    if source == VoiceRecognition then "voice-rec-"
    else if source == VoiceCommunication then "communication-"
    else "media-"
  }

  lemma OutputRows(device: set<OutDevice>)
    ensures OutputDeviceId(device) == OUT_DEVICE_NONE <==> !PlaysOn(device)
    ensures OutputDeviceId(device) == OUT_DEVICE_SPEAKER <==> device == {Speaker}
    ensures OutputDeviceId(device) == OUT_DEVICE_HEADSET <==> device == {WiredHeadset}
    ensures OutputDeviceId(device) == OUT_DEVICE_HEADPHONES <==> device == {WiredHeadphone}
    ensures OutputDeviceId(device) == OUT_DEVICE_SPEAKER_AND_HEADSET <==> PlaysOnBoth(device)
  {
    assert |{Speaker, WiredHeadset}| == 2 == |{Speaker, WiredHeadphone}|;
  }

  lemma SourceRows(source: Source)
    ensures InputSourceId(source) == IN_SOURCE_NONE <==> !Records(source)
    ensures InputSourceId(source) == IN_SOURCE_MIC <==> source == Mic
    ensures InputSourceId(source) == IN_SOURCE_CAMCORDER <==> source == Camcorder
    ensures InputSourceId(source) == IN_SOURCE_VOICE_RECOGNITION <==> source == VoiceRecognition
    ensures InputSourceId(source) == IN_SOURCE_VOICE_COMMUNICATION <==> source == VoiceCommunication
  {
  }

  /** A playing device has an output path: the source's prefix and the kind of device. */
  lemma OutputName(r: Request)
    ensures ChosenRoutes(r).output == None <==> !PlaysOn(r.outDevice)
    ensures r.outDevice == {Speaker} ==> ChosenRoutes(r).output == Some(Prefix(r.source) + "speaker")
    ensures r.outDevice == {WiredHeadset} ==> ChosenRoutes(r).output == Some(Prefix(r.source) + "headphones")
    ensures r.outDevice == {WiredHeadphone} ==> ChosenRoutes(r).output == Some(Prefix(r.source) + "headphones")
    ensures PlaysOnBoth(r.outDevice) ==> ChosenRoutes(r).output == Some("speaker-and-headphones")
  {
    hide OutputDeviceId, InputSourceId;
    OutputRows(r.outDevice);
    SourceRows(r.source);
    OutputNames();
  }

  lemma OutputNames()
    ensures "media-" + "speaker" == "media-speaker" && "media-" + "headphones" == "media-headphones"
    ensures "voice-rec-" + "speaker" == "voice-rec-speaker" && "voice-rec-" + "headphones" == "voice-rec-headphones"
    ensures "communication-" + "speaker" == "communication-speaker"
    ensures "communication-" + "headphones" == "communication-headphones"
  {
  }

  /** A recording source has an input path: the headset's microphone for a headset, else the source's own. */
  lemma InputName(r: Request)
    ensures ChosenRoutes(r).input == None <==> !Records(r.source)
    ensures Records(r.source) ==>
              ChosenRoutes(r).input == Some(
                if PlaysOnBoth(r.outDevice) then "main-mic"
                else if r.source == Camcorder then "media-second-mic"
                else if r.outDevice == {WiredHeadset} || (!PlaysOn(r.outDevice) && r.inDevice == HeadsetMic)
                then Prefix(r.source) + "headset-mic"
                else Prefix(r.source) + "main-mic")
  {
    hide OutputDeviceId, InputSourceId;
    OutputRows(r.outDevice);
    SourceRows(r.source);
    InputNames();
  }

  lemma InputNames()
    ensures "media-" + "main-mic" == "media-main-mic" && "media-" + "headset-mic" == "media-headset-mic"
    ensures "voice-rec-" + "main-mic" == "voice-rec-main-mic" && "voice-rec-" + "headset-mic" == "voice-rec-headset-mic"
    ensures "communication-" + "main-mic" == "communication-main-mic"
    ensures "communication-" + "headset-mic" == "communication-headset-mic"
  {
  }

  function PathOf(table: Table, name: Option<string>): seq<MixerSetting> {
    if name.None? then [] else Lookup(table, name.value)
  }

  lemma PathFits(table: Table, name: Option<string>, sizes: seq<nat>)
    requires TableFits(table, sizes)
    ensures SettingsFit(PathOf(table, name), sizes)
  {
    if name.Some? { LookupFits(table, name.value, sizes); }
  }

  /** The values after applying the path with a name, if any. */
  ghost function OverlayPath(values: Values, table: Table, name: Option<string>, sizes: seq<nat>): (v: Values)
    requires Fits(values, sizes) && TableFits(table, sizes)
    ensures Fits(v, sizes)
  {
    PathFits(table, name, sizes);
    Overlay(values, PathOf(table, name), sizes)
  }

  /** The simple meaning of a route: saved values, then the output path, then the input path. */
  ghost function RouteValues(saved: Values, table: Table, routes: Routes, sizes: seq<nat>): (v: Values)
    requires Fits(saved, sizes) && TableFits(table, sizes)
    ensures Fits(v, sizes)
  {
    OverlayPath(OverlayPath(saved, table, routes.output, sizes), table, routes.input, sizes)
  }

  /** Control by control: the input path has the last word, then the output path, then the saved values. */
  lemma RouteValueOf(saved: Values, table: Table, routes: Routes, sizes: seq<nat>, c: nat)
    requires Fits(saved, sizes) && TableFits(table, sizes) && c < |sizes|
    ensures var output, input, v := PathOf(table, routes.output), PathOf(table, routes.input),
                                    RouteValues(saved, table, routes, sizes)[c];
            && (forall i :: 0 <= i < |input| && input[i].ctlIndex == c ==> v == input[i].value)
            && (!Lists(input, c) ==> forall i :: 0 <= i < |output| && output[i].ctlIndex == c ==> v == output[i].value)
            && (!Lists(input, c) && !Lists(output, c) ==> v == saved[c])
  {
    hide Lookup, Fits;
    PathDistinct(table, routes.output, sizes);
    PathDistinct(table, routes.input, sizes);
    var between := OverlayPath(saved, table, routes.output, sizes);
    OverlayOf(saved, PathOf(table, routes.output), sizes, c);
    OverlayOf(between, PathOf(table, routes.input), sizes, c);
  }

  lemma PathDistinct(table: Table, name: Option<string>, sizes: seq<nat>)
    requires TableFits(table, sizes)
    ensures SettingsFit(PathOf(table, name), sizes) && DistinctControls(PathOf(table, name))
  {
    if name.Some? {
      LookupFits(table, name.value, sizes);
    }
  }

  lemma OverlayOf(values: Values, settings: seq<MixerSetting>, sizes: seq<nat>, c: nat)
    requires Fits(values, sizes) && SettingsFit(settings, sizes) && DistinctControls(settings) && c < |sizes|
    ensures forall i :: 0 <= i < |settings| && settings[i].ctlIndex == c ==>
              Overlay(values, settings, sizes)[c] == settings[i].value
    ensures !Lists(settings, c) ==> Overlay(values, settings, sizes)[c] == values[c]
  {
    hide Overlay;
    forall i | 0 <= i < |settings| && settings[i].ctlIndex == c
      ensures Overlay(values, settings, sizes)[c] == settings[i].value
    {
      OverlayListed(values, settings, sizes, i);
    }
    if !Lists(settings, c) {
      OverlayUnlisted(values, settings, sizes, c);
    }
  }

  /** The current route id and what the hardware holds. */
  datatype Selection = Selection(routeId: nat, hardware: Values)

  /** One selection: nothing happens unless the route id changes. */
  ghost function Select(s: Selection, r: Request, saved: Values, table: Table, sizes: seq<nat>): Selection
    requires Fits(saved, sizes) && TableFits(table, sizes)
  {
    if r.Id() == s.routeId then s
    else Selection(r.Id(), RouteValues(saved, table, ChosenRoutes(r), sizes))
  }

  ghost function Run(s: Selection, rs: seq<Request>, saved: Values, table: Table, sizes: seq<nat>): Selection
    requires Fits(saved, sizes) && TableFits(table, sizes)
  {
    if rs == [] then s
    else Select(Run(s, rs[..|rs| - 1], saved, table, sizes), rs[|rs| - 1], saved, table, sizes)
  }

  /** The request at which the route id last changed. */
  function LastChange(rs: seq<Request>): Request
    requires rs != []
  {
    var n := |rs| - 1;
    if n == 0 || rs[n].Id() != rs[n - 1].Id() then rs[n] else LastChange(rs[..n])
  }

  lemma {:induction false} LastChangeSameId(rs: seq<Request>)
    requires rs != []
    ensures LastChange(rs) in rs
    ensures LastChange(rs).Id() == rs[|rs| - 1].Id()
    ensures LastChange(rs).Out() == rs[|rs| - 1].Out() && LastChange(rs).In() == rs[|rs| - 1].In()
  {
    hide RouteId;
    var n := |rs| - 1;
    if n > 0 && rs[n].Id() == rs[n - 1].Id() {
      LastChangeSameId(rs[..n]);
      RouteIdInjective(rs[n].Out(), rs[n].In(), rs[n - 1].Out(), rs[n - 1].In());
    }
  }

  /**
   Over every run from the initial state the hardware holds the saved values overlaid by the paths
   chosen when the route id last changed.
   */
  lemma {:induction false} HardwareAfterRun(s: Selection, rs: seq<Request>, saved: Values, table: Table, sizes: seq<nat>)
    requires Fits(saved, sizes) && TableFits(table, sizes) && rs != [] && s.routeId == 0
    ensures Run(s, rs, saved, table, sizes)
         == Selection(rs[|rs| - 1].Id(), RouteValues(saved, table, ChosenRoutes(LastChange(rs)), sizes))
  {
    hide RouteValues, ChosenRoutes, RouteId;
    var n := |rs| - 1;
    RouteIdInjective(rs[n].Out(), rs[n].In(), rs[n].Out(), rs[n].In());
    if n > 0 {
      HardwareAfterRun(s, rs[..n], saved, table, sizes);
    }
  }

  predicate HeadsetUsed(r: Request) { r.inDevice == HeadsetMic }

  /** The sources whose microphone differs between a headset and the device's own. */
  predicate HeadsetMatters(r: Request) {
    Consulted(r) && (r.source == Mic || r.source == VoiceRecognition || r.source == VoiceCommunication)
  }

  /**
   The short-circuit leaves the paths of the current request in place exactly when the request does
   not go by the headset microphone or the headset was (un)plugged as it is now when the id changed.
   */
  lemma RouteIsCurrent(rs: seq<Request>)
    requires rs != []
    ensures ChosenRoutes(LastChange(rs)) == ChosenRoutes(rs[|rs| - 1])
       <==> !(HeadsetMatters(rs[|rs| - 1]) && HeadsetUsed(LastChange(rs)) != HeadsetUsed(rs[|rs| - 1]))
  {
    hide RouteId, OutputDeviceId, LastChange;
    LastChangeSameId(rs);
    var last := rs[|rs| - 1];
    SourceRows(last.source);
    if Consulted(last) {
      MicNames(last.In());
    }
  }

  /** Only the camcorder uses one microphone for both. */
  lemma MicNames(source: nat)
    requires source < 4
    ensures RouteConfig(source, OUT_DEVICE_HEADSET).1 == RouteConfig(source, OUT_DEVICE_SPEAKER).1
       <==> source == IN_SOURCE_CAMCORDER
  {
    if source == IN_SOURCE_MIC {
      assert RouteConfig(source, OUT_DEVICE_HEADSET).1[6] == 'h' != RouteConfig(source, OUT_DEVICE_SPEAKER).1[6];
    } else if source == IN_SOURCE_VOICE_RECOGNITION {
      assert RouteConfig(source, OUT_DEVICE_HEADSET).1[10] == 'h' != RouteConfig(source, OUT_DEVICE_SPEAKER).1[10];
    } else if source == IN_SOURCE_VOICE_COMMUNICATION {
      assert RouteConfig(source, OUT_DEVICE_HEADSET).1[14] == 'h' != RouteConfig(source, OUT_DEVICE_SPEAKER).1[14];
    }
  }

  /** Recording with no output active: plugging in a headset does not move the route to its microphone. */
  lemma StaleHeadsetRoute()
    ensures var r0 := Request({}, OtherIn(0), Mic);
            var r1 := Request({}, HeadsetMic, Mic);
            && ChosenRoutes(LastChange([r0, r1])).input == Some("media-main-mic")
            && ChosenRoutes(r1).input == Some("media-headset-mic")
  {
    var r0 := Request({}, OtherIn(0), Mic);
    var r1 := Request({}, HeadsetMic, Mic);
    assert [r0, r1][..1] == [r0];
  }

  /** The same run on a card with one control: the hardware keeps the value of the wrong path. */
  lemma StaleHeadsetHardware()
    ensures var table := [("media-main-mic", [MixerSetting(0, [1])]), ("media-headset-mic", [MixerSetting(0, [2])])];
            var rs := [Request({}, OtherIn(0), Mic), Request({}, HeadsetMic, Mic)];
            && TableFits(table, [1]) && Fits([[0]], [1])
            && Run(Selection(0, [[0]]), rs, [[0]], table, [1]).hardware == [[1]]
            && RouteValues([[0]], table, ChosenRoutes(rs[1]), [1]) == [[2]]
  {
    hide Run;
    var table := [("media-main-mic", [MixerSetting(0, [1])]), ("media-headset-mic", [MixerSetting(0, [2])])];
    var rs := [Request({}, OtherIn(0), Mic), Request({}, HeadsetMic, Mic)];
    var main, headset := [MixerSetting(0, [1])], [MixerSetting(0, [2])];
    assert TableFits(table, [1]);
    StaleHeadsetRoute();
    HardwareAfterRun(Selection(0, [[0]]), rs, [[0]], table, [1]);
    HeadsetTable(table, main, headset);
    OneSetting(main);
    OneSetting(headset);
  }

  lemma HeadsetTable(table: Table, main: seq<MixerSetting>, headset: seq<MixerSetting>)
    requires table == [("media-main-mic", main), ("media-headset-mic", headset)]
    ensures Lookup(table, "media-main-mic") == main && Lookup(table, "media-headset-mic") == headset
  {
    assert "media-main-mic"[6] == 'm' && "media-headset-mic"[6] == 'h';
    assert table[1..] == [("media-headset-mic", headset)];
  }

  lemma OneSetting(settings: seq<MixerSetting>)
    requires |settings| == 1 && settings[0].ctlIndex == 0 && |settings[0].value| == 1
    ensures SettingsFit(settings, [1]) && Fits([[0]], [1])
    ensures Overlay([[0]], settings, [1]) == [settings[0].value]
  {
    assert Overlay([[0]], settings[..0], [1]) == [[0]];
  }

  class AudioDevice {
    var outDevice: set<OutDevice>
    var inDevice: InDevice
    var inputSource: Source
    var curRouteId: nat
    const ar: AudioRoute

    /** After audio_route_init the cache, the hardware and the saved values agree. */
    constructor (route: AudioRoute)
      requires route.Valid()
      ensures Valid()
      ensures ar == route && curRouteId == 0 && outDevice == {} && inputSource == DefaultSource
    {
      outDevice, inDevice, inputSource, curRouteId, ar := {}, OtherIn(0), DefaultSource, 0, route;
    }

    ghost predicate Valid()
      reads this, ar, ar.mixer, ar.pathRepr
    {
      this !in ar.pathRepr && ar.Valid()
    }

    function Requested(): Request
      reads this
    {
      Request(outDevice, inDevice, inputSource)
    }

    ghost function Selected(): Selection
      reads this, ar.mixer
    {
      Selection(curRouteId, ar.mixer.value)
    }

    /** select_devices: the cache is reset even when the selection is skipped. */
    method SelectDevices()
      requires Valid()
      modifies this`curRouteId, ar`newValue, ar`oldValue, ar.mixer
      ensures Valid() && ar.Paths() == old(ar.Paths())
      ensures Selected() == Select(old(Selected()), Requested(), ar.resetValue, ar.Paths(), ar.numValues)
      ensures curRouteId == old(curRouteId) ==> ar.newValue == ar.resetValue && ar.mixer.writes == old(ar.mixer.writes)
      ensures curRouteId != old(curRouteId) ==> ar.newValue == ar.mixer.value
    {
      hide AudioRoute.PathsValid, UniqueNames, ChosenRoutes, TableFits, Fits, RouteValues, AudioRoute.ControlsFit;
      var out, source := OutputDeviceId(outDevice), InputSourceId(inputSource);
      ar.Reset();
      var newRouteId := Bit(source + OUT_DEVICE_CNT) + Bit(out);
      if newRouteId == curRouteId {
        return;
      }
      curRouteId := newRouteId;
      var outputRoute, inputRoute := Choose(out, source);
      ApplyRoutes(outputRoute, inputRoute);
    }

    /** Any requests, one after the other. */
    method SelectAll(rs: seq<Request>)
      requires Valid()
      modifies this`outDevice, this`inDevice, this`inputSource, this`curRouteId, ar`newValue, ar`oldValue, ar.mixer
      ensures Valid() && ar.Paths() == old(ar.Paths())
      ensures Selected() == Run(old(Selected()), rs, ar.resetValue, ar.Paths(), ar.numValues)
    {
      hide AudioRoute.PathsValid, UniqueNames, TableFits, Fits, AudioRoute.ControlsFit, Select;
      assert rs[..|rs|] == rs;
      for i := 0 to |rs|
        invariant Valid() && ar.Paths() == old(ar.Paths())
        invariant Selected() == Run(old(Selected()), rs[..i], ar.resetValue, ar.Paths(), ar.numValues)
      {
        assert rs[..i + 1][..i] == rs[..i];
        outDevice, inDevice, inputSource := rs[i].outDevice, rs[i].inDevice, rs[i].source;
        SelectDevices();
      }
    }

    /** Both paths, the output's first, and then the hardware. */
    method ApplyRoutes(outputRoute: Option<string>, inputRoute: Option<string>)
      requires Valid()
      modifies ar`newValue, ar`oldValue, ar.mixer
      ensures Valid() && ar.Paths() == old(ar.Paths()) && ar.newValue == ar.mixer.value
      ensures ar.mixer.value
           == RouteValues(old(ar.newValue), ar.Paths(), Routes(outputRoute, inputRoute), ar.numValues)
    {
      hide AudioRoute.PathsValid, UniqueNames, TableFits, Fits, OverlayPath, AudioRoute.ControlsFit;
      Apply(outputRoute);
      Apply(inputRoute);
      ar.UpdateMixer();
    }

    /** The choice of paths in the middle of select_devices. */
    method Choose(outId: nat, source: nat) returns (outputRoute: Option<string>, inputRoute: Option<string>)
      requires outId == OutputDeviceId(outDevice) && source == InputSourceId(inputSource)
      ensures Routes(outputRoute, inputRoute) == ChosenRoutes(Requested())
    {
      var out := outId;
      outputRoute, inputRoute := None, None;
      if source != IN_SOURCE_NONE {
        if out != OUT_DEVICE_NONE {
          inputRoute := Some(RouteConfig(source, out).1);
          outputRoute := Some(RouteConfig(source, out).0);
        } else {
          out := if inDevice == HeadsetMic then OUT_DEVICE_HEADSET else OUT_DEVICE_SPEAKER;
          inputRoute := Some(RouteConfig(source, out).1);
        }
      } else if out != OUT_DEVICE_NONE {
        outputRoute := Some(RouteConfig(IN_SOURCE_MIC, out).0);
      }
    }

    method Apply(name: Option<string>)
      requires ar.Valid()
      modifies ar`newValue
      ensures ar.Valid()
      ensures ar.newValue == OverlayPath(old(ar.newValue), ar.Paths(), name, ar.numValues)
    {
      if name.Some? {
        var _ := ar.ApplyPath(name.value);
      }
    }
  }
  /** A new path with one setting, on a card with one control. */
  method AddMicPath(ar: AudioRoute, name: string, v: MixerValue)
    requires ar.Valid() && ar.numValues == [1] && !Named(ar.Paths(), name) && v.ctlIndex == 0 && -1 <= v.index < 1
    modifies ar`mixerPathSize, ar`mixerPath, ar`pathRepr
    ensures ar.Valid() && fresh(ar.pathRepr - old(ar.pathRepr))
    ensures ar.Paths() == old(ar.Paths()) + [(name, [MixerSetting(0, [v.value])])]
  {
    hide UniqueNames, TableFits, Fits, AudioRoute.PathsValid, AudioRoute.ControlsFit, WithSetting, Named;
    ghost var before := ar.Paths();
    var n := |ar.mixerPath|;
    var p := ar.PathCreate(name);
    assert ar.mixerPath[n] == p;
    var r := ar.AddValueTo(n, v, [0]);
    FirstValue(v);
    assert ar.Paths() == before + [(name, [MixerSetting(0, [v.value])])];
  }

  method OneControlRoute() returns (ar: AudioRoute)
    ensures fresh(ar) && fresh(ar.mixer) && fresh(ar.pathRepr) && ar.Valid() && ar.Paths() == []
    ensures ar.numValues == [1] && ar.newValue == ar.mixer.value == [[0]]
  {
    hide UniqueNames, TableFits;
    var mixer := new Mixer([[0]]);
    ar := new AudioRoute(mixer, [IntCtl], [1], [[0]]);
  }

  /** A table built call by call, and the end of audio_route_init: the mixer is updated and its state saved. */
  method BuildTwoPaths(first: string, second: string) returns (ar: AudioRoute)
    requires first != second
    ensures fresh(ar) && fresh(ar.mixer) && fresh(ar.pathRepr) && ar.Valid()
    ensures ar.numValues == [1] && ar.resetValue == ar.mixer.value == [[0]]
    ensures ar.Paths() == [(first, [MixerSetting(0, [1])]), (second, [MixerSetting(0, [2])])]
  {
    hide UniqueNames, TableFits, AudioRoute.PathsValid, AudioRoute.ControlsFit, AudioRoute.Valid, Named, Fits;
    ar := OneControlRoute();
    NamesDiffer([], first);
    AddMicPath(ar, first, MixerValue(0, 0, 1));
    ghost var empty: Table, table: Table := [], [(first, [MixerSetting(0, [1])])];
    assert empty + table == table;
    NamesDiffer(table, second);
    AddMicPath(ar, second, MixerValue(0, -1, 2));
    ar.FinishInit();
  }

  lemma NamesDiffer(table: Table, name: string)
    requires |table| <= 1 && (|table| == 1 ==> table[0].0 != name)
    ensures !Named(table, name)
  {
  }

  /** The first value given to an empty path, on a control with one value. */
  lemma FirstValue(v: MixerValue)
    requires v.ctlIndex == 0 && -1 <= v.index < 1
    ensures WithSetting([], v, [0]) == [MixerSetting(0, [v.value])]
  {
    assert [0][0 := v.value] == [v.value];
    assert WithValue([v.value], v) == [v.value];
  }

  /** From an empty table to the hardware: the route built above is chosen, and stays when a headset is plugged in. */
  method StaleHeadsetRun() returns (before: Values, after: Values)
    ensures before == after == [[1]]
  {
    hide UniqueNames, TableFits, Fits, AudioRoute.PathsValid, AudioRoute.ControlsFit, RouteValues, Run;
    assert "media-main-mic"[6] == 'm' && "media-headset-mic"[6] == 'h';
    var ar := BuildTwoPaths("media-main-mic", "media-headset-mic");
    var dev := new AudioDevice(ar);
    var r0, r1 := Request({}, OtherIn(0), Mic), Request({}, HeadsetMic, Mic);
    StaleHeadsetHardware();
    FirstHardware();
    dev.SelectAll([r0]);
    before := ar.mixer.value;
    RunInTwo(Selection(0, [[0]]), r0, r1, ar.resetValue, ar.Paths(), ar.numValues);
    dev.SelectAll([r1]);
    after := ar.mixer.value;
  }

  lemma RunInTwo(s: Selection, r0: Request, r1: Request, saved: Values, table: Table, sizes: seq<nat>)
    requires Fits(saved, sizes) && TableFits(table, sizes)
    ensures Run(Run(s, [r0], saved, table, sizes), [r1], saved, table, sizes) == Run(s, [r0, r1], saved, table, sizes)
  {
    hide Select;
    assert [r0, r1][..1] == [r0] && [r0][..0] == [] && [r1][..0] == [];
    assert Run(s, [], saved, table, sizes) == s;
  }

  lemma FirstHardware()
    ensures var table := [("media-main-mic", [MixerSetting(0, [1])]), ("media-headset-mic", [MixerSetting(0, [2])])];
            && TableFits(table, [1]) && Fits([[0]], [1])
            && Run(Selection(0, [[0]]), [Request({}, OtherIn(0), Mic)], [[0]], table, [1]).hardware == [[1]]
  {
    hide Run;
    var main, headset := [MixerSetting(0, [1])], [MixerSetting(0, [2])];
    var table := [("media-main-mic", main), ("media-headset-mic", headset)];
    StaleHeadsetHardware();
    HardwareAfterRun(Selection(0, [[0]]), [Request({}, OtherIn(0), Mic)], [[0]], table, [1]);
    HeadsetTable(table, main, headset);
    OneSetting(main);
    OneSetting(headset);
  }
}

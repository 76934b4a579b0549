/**
 * The dashboard application: the controls of every tab, the attached device, and the
 * `updating` flag that marks a refresh pass so that the change reports it causes are
 * not taken for user edits.
 */
module App {
  import opened Opt
  import opened Decimal
  import opened DeviceModel
  import opened Controls
  import opened Layout
  import opened Sync

  class FanApp {
    var device: Device?
    var updating: bool
    const bars: map<BarId, ValueBar>
    const switches: map<SwitchId, Switch>
    const fanModeSel: ModeSelector
    const lightModeSel: ModeSelector
    var presetMarks: seq<bool>          // whether each preset button in PRESETS carries "-active"
    var lightTabShown: bool
    var nightlightTabShown: bool

    ghost const barOf: map<ValueBar, BarId>        // which bar each bar object is
    ghost const switchOf: map<Switch, SwitchId>    // which switch each switch object is

    /** Every widget exists, and the widgets are distinct objects. */
    ghost predicate Laid() {
      && (forall b: BarId :: b in bars)
      && (forall b: BarId {:trigger bars[b]} :: b in bars ==> bars[b] in barOf && barOf[bars[b]] == b)
      && (forall w: SwitchId :: w in switches)
      && (forall w: SwitchId {:trigger switches[w]} :: w in switches ==> switches[w] in switchOf && switchOf[switches[w]] == w)
      && fanModeSel != lightModeSel
    }

    /** Every widget carries its laid-out id. */
    ghost predicate Named() {
      && (forall b: BarId {:trigger bars[b]} :: b in bars ==> bars[b].id == BarWidgetId(b) && bars[b].barId == BarButtonPrefix(b))
      && (forall w: SwitchId {:trigger switches[w]} :: w in switches ==> switches[w].id == SwitchWidgetId(w))
      && fanModeSel.id == SelectorWidgetId(FanModeSel)
      && lightModeSel.id == SelectorWidgetId(LightModeSel)
    }

    /**
     * No widget is in the middle of a quiet set, so each one posts the changes a user
     * makes. Quiet sets clear the flag before they return, so this holds between events.
     */
    ghost predicate Quiet()
      reads bars.Values, fanModeSel, lightModeSel
    {
      && (forall b: BarId {:trigger bars[b]} :: b in bars ==> !bars[b].suppress)
      && !fanModeSel.suppress && !lightModeSel.suppress
    }

    /** Laid out and named, with a mark for every preset button. */
    ghost predicate Valid()
      reads this
    {
      Laid() && Named() && |presetMarks| == |PRESETS|
    }

    static method NewBar(b: BarId, nlColorMin: int, nlColorMax: int) returns (bar: ValueBar)
      ensures fresh(bar)
      ensures bar.id == BarWidgetId(b) && bar.barId == BarButtonPrefix(b)
      ensures bar.State() == BarState(0, BarBounds(b, nlColorMin, nlColorMax).0, BarBounds(b, nlColorMin, nlColorMax).1)
      ensures bar.step == BarBounds(b, nlColorMin, nlColorMax).2
      ensures !bar.suppress && bar.posted == []
    {
      var bounds := BarBounds(b, nlColorMin, nlColorMax);
      bar := new ValueBar(BarWidgetId(b), BarButtonPrefix(b), bounds.0, bounds.1, bounds.2);
    }

    /** One bar per bar id, each fresh and laid out with its bounds and step. */
    static method NewBars(nlColorMin: int, nlColorMax: int) returns (m: map<BarId, ValueBar>, ghost inv: map<ValueBar, BarId>)
      ensures forall b: BarId :: b in m
      ensures fresh(m.Values)
      ensures forall b: BarId :: b in m ==> m[b] in inv && inv[m[b]] == b
      ensures forall b: BarId :: b in m ==>
        && fresh(m[b]) && m[b].id == BarWidgetId(b) && m[b].barId == BarButtonPrefix(b)
        && m[b].State() == BarState(0, BarBounds(b, nlColorMin, nlColorMax).0, BarBounds(b, nlColorMin, nlColorMax).1)
        && m[b].step == BarBounds(b, nlColorMin, nlColorMax).2
        && !m[b].suppress && m[b].posted == []
    {
      m, inv := map[], map[];
      var i := 0;
      while i < |ALL_BARS|
        invariant 0 <= i <= |ALL_BARS|
        invariant forall k :: 0 <= k < i ==> ALL_BARS[k] in m
        invariant forall b: BarId :: b in m ==> m[b] in inv && inv[m[b]] == b
        invariant forall b: BarId :: b in m ==>
          && fresh(m[b]) && m[b].id == BarWidgetId(b) && m[b].barId == BarButtonPrefix(b)
          && m[b].State() == BarState(0, BarBounds(b, nlColorMin, nlColorMax).0, BarBounds(b, nlColorMin, nlColorMax).1)
          && m[b].step == BarBounds(b, nlColorMin, nlColorMax).2
          && !m[b].suppress && m[b].posted == []
      {
        var bar := NewBar(ALL_BARS[i], nlColorMin, nlColorMax);
        m, inv := m[ALL_BARS[i] := bar], inv[bar := ALL_BARS[i]];
        i := i + 1;
      }
      forall b: BarId
        ensures b in m
      {
        AllBarsListed(b);
      }
    }

    /** One switch per switch id, each fresh, laid out with its id and off. */
    static method NewSwitches() returns (m: map<SwitchId, Switch>, ghost inv: map<Switch, SwitchId>)
      ensures forall w: SwitchId :: w in m
      ensures fresh(m.Values)
      ensures forall w: SwitchId :: w in m ==> m[w] in inv && inv[m[w]] == w
      ensures forall w: SwitchId :: w in m ==> fresh(m[w]) && m[w].id == SwitchWidgetId(w) && !m[w].value
    {
      m, inv := map[], map[];
      var i := 0;
      while i < |ALL_SWITCHES|
        invariant 0 <= i <= |ALL_SWITCHES|
        invariant forall k :: 0 <= k < i ==> ALL_SWITCHES[k] in m
        invariant forall w: SwitchId :: w in m ==> m[w] in inv && inv[m[w]] == w
        invariant forall w: SwitchId :: w in m ==> fresh(m[w]) && m[w].id == SwitchWidgetId(w) && !m[w].value
      {
        var sw := new Switch(SwitchWidgetId(ALL_SWITCHES[i]));
        m, inv := m[ALL_SWITCHES[i] := sw], inv[sw := ALL_SWITCHES[i]];
        i := i + 1;
      }
      forall w: SwitchId
        ensures w in m
      {
        AllSwitchesListed(w);
      }
    }

    /**
     * The widgets as laid out, before any device is attached; the nightlight colour
     * bar's bounds are the library's colour range.
     */
    constructor (nlColorMin: int, nlColorMax: int)
      ensures Valid() && Quiet() && device == null && !updating
      ensures fresh(bars.Values) && fresh(switches.Values) && fresh(fanModeSel) && fresh(lightModeSel)
      ensures forall b: BarId :: bars[b].State() == BarState(0, BarBounds(b, nlColorMin, nlColorMax).0, BarBounds(b, nlColorMin, nlColorMax).1)
      ensures forall b: BarId :: bars[b].step == BarBounds(b, nlColorMin, nlColorMax).2 && bars[b].posted == []
      ensures forall w: SwitchId :: !switches[w].value
      ensures fanModeSel.selected == None && lightModeSel.selected == None
      ensures forall i :: 0 <= i < |presetMarks| ==> !presetMarks[i]
      ensures lightTabShown && nightlightTabShown
    {
      var madeBars, barInv := NewBars(nlColorMin, nlColorMax);
      var madeSwitches, switchInv := NewSwitches();
      bars, barOf := madeBars, barInv;
      switches, switchOf := madeSwitches, switchInv;
      fanModeSel := new ModeSelector(SelectorWidgetId(FanModeSel), "fan-mode");
      lightModeSel := new ModeSelector(SelectorWidgetId(LightModeSel), "light-mode");
      presetMarks := seq(|PRESETS|, _ => false);
      lightTabShown, nightlightTabShown := true, true;
      device := null;
      updating := false;
    }

    /** The connection step hands over the device object (resolution and connecting are not modelled). */
    method AttachDevice(dev: Device)
      modifies this
      ensures device == dev
      ensures updating == old(updating) && presetMarks == old(presetMarks)
      ensures lightTabShown == old(lightTabShown) && nightlightTabShown == old(nightlightTabShown)
    {
      device := dev;
    }

    // ------------------------------------------------------------ refresh pass

    /** Assigning a switch's value; the switch reports a change to the app only when the value differs. */
    method SetSwitch(sw: Switch, on: bool)
      modifies sw, device
      ensures sw.value == on
      ensures device != null ==> device.snapshot == old(device.snapshot)
      ensures device != null ==>
        device.writes == old(device.writes) + (if old(sw.value) != on && !updating then SwitchEventWrites(sw.id, on) else [])
    {
      if sw.value != on {
        sw.value := on;
        OnSwitchChanged(sw.id, on);
      }
    }

    /** During a pass, a switch takes its reported flag, if any; its change report is dropped. */
    method RefreshSwitch(w: SwitchId, s: Snapshot)
      requires Laid() && updating && device != null
      modifies switches[w], device
      ensures forall v: SwitchId :: switches[v].value == OneSwitch(w, v, old(switches[v].value), s)
      ensures forall b: BarId :: bars[b].State() == old(bars[b].State()) && bars[b].posted == old(bars[b].posted) && (bars[b].suppress ==> old(bars[b].suppress))
      ensures device == old(device) && updating == old(updating)
      ensures device.snapshot == old(device.snapshot) && device.writes == old(device.writes)
    {
      if SwitchFlag(w) in s.flags {
        SetSwitch(switches[w], s.flags[SwitchFlag(w)]);
      }
    }

    /** During a pass, a bar is set quietly to its reported field, if any; it posts nothing. */
    method RefreshBar(b: BarId, s: Snapshot)
      requires Laid()
      modifies bars[b]
      ensures forall c: BarId :: bars[c].State() == OneBar(b, c, old(bars[c].State()), s)
      ensures forall c: BarId :: bars[c].posted == old(bars[c].posted) && (bars[c].suppress ==> old(bars[c].suppress))
      ensures forall w: SwitchId :: switches[w].value == old(switches[w].value)
      ensures device == old(device) && updating == old(updating)
      ensures device != null ==> device.snapshot == old(device.snapshot) && device.writes == old(device.writes)
    {
      if BarField(b) in s.ints {
        bars[b].SetValueQuiet(s.ints[BarField(b)]);
      }
    }

    /** The colour-temperature bar takes the device's warmest and coolest temperatures as its bounds. */
    method RangeColorTemperature(s: Snapshot)
      requires Laid()
      modifies bars[LightCtBar]
      ensures forall c: BarId :: bars[c].State() == Ranged(c, old(bars[c].State()), s)
      ensures forall c: BarId :: bars[c].posted == old(bars[c].posted) && (bars[c].suppress ==> old(bars[c].suppress))
      ensures forall w: SwitchId :: switches[w].value == old(switches[w].value)
      ensures device == old(device) && updating == old(updating)
      ensures device != null ==> device.snapshot == old(device.snapshot) && device.writes == old(device.writes)
    {
      if LightWarmestColorTemperature in s.ints && LightCoolestColorTemperature in s.ints {
        var ctBar := bars[LightCtBar];
        ctBar.lo := s.ints[LightWarmestColorTemperature];
        ctBar.hi := s.ints[LightCoolestColorTemperature];
      }
    }

    /** The fan speed and the whoosh, eco and reverse switches. */
    method RefreshFanDrive(s: Snapshot)
      requires Laid() && updating && device != null
      modifies bars.Values, switches.Values, device
      ensures forall b: BarId :: bars[b].State() == SectionBar(FanDriveSection, b, old(bars[b].State()), s) && bars[b].posted == old(bars[b].posted) && (bars[b].suppress ==> old(bars[b].suppress))
      ensures forall w: SwitchId :: switches[w].value == SectionSwitch(FanDriveSection, w, old(switches[w].value), s)
      ensures device == old(device) && updating == old(updating)
      ensures device.snapshot == old(device.snapshot) && device.writes == old(device.writes)
    {
      FanDriveSteps(s);
      RefreshBar(SpeedBar, s);
      RefreshSwitch(WhooshSw, s);
      RefreshSwitch(EcoSw, s);
      RefreshSwitch(ReverseSw, s);
    }

    /** The comfort section: auto comfort, its ideal temperature and its speed range. */
    method RefreshComfort(s: Snapshot)
      requires Laid() && updating && device != null
      modifies bars.Values, switches.Values, device
      ensures forall b: BarId :: bars[b].State() == SectionBar(ComfortSection, b, old(bars[b].State()), s) && bars[b].posted == old(bars[b].posted) && (bars[b].suppress ==> old(bars[b].suppress))
      ensures forall w: SwitchId :: switches[w].value == SectionSwitch(ComfortSection, w, old(switches[w].value), s)
      ensures device == old(device) && updating == old(updating)
      ensures device.snapshot == old(device.snapshot) && device.writes == old(device.writes)
    {
      ComfortSteps(s);
      RefreshSwitch(ComfortSw, s);
      RefreshBar(ComfortTempBar, s);
      RefreshBar(ComfortMinBar, s);
      RefreshBar(ComfortMaxBar, s);
    }

    /** Heat assist, its speed and its direction. */
    method RefreshHeatAssist(s: Snapshot)
      requires Laid() && updating && device != null
      modifies bars.Values, switches.Values, device
      ensures forall b: BarId :: bars[b].State() == SectionBar(HeatAssistSection, b, old(bars[b].State()), s) && bars[b].posted == old(bars[b].posted) && (bars[b].suppress ==> old(bars[b].suppress))
      ensures forall w: SwitchId :: switches[w].value == SectionSwitch(HeatAssistSection, w, old(switches[w].value), s)
      ensures device == old(device) && updating == old(updating)
      ensures device.snapshot == old(device.snapshot) && device.writes == old(device.writes)
    {
      HeatAssistSteps(s);
      RefreshSwitch(HeatAssistSw, s);
      RefreshBar(HeatSpeedBar, s);
      RefreshSwitch(HeatReverseSw, s);
    }

    /** The motion and return-to-auto section. */
    method RefreshMotion(s: Snapshot)
      requires Laid() && updating && device != null
      modifies bars.Values, switches.Values, device
      ensures forall b: BarId :: bars[b].State() == SectionBar(MotionSection, b, old(bars[b].State()), s) && bars[b].posted == old(bars[b].posted) && (bars[b].suppress ==> old(bars[b].suppress))
      ensures forall w: SwitchId :: switches[w].value == SectionSwitch(MotionSection, w, old(switches[w].value), s)
      ensures device == old(device) && updating == old(updating)
      ensures device.snapshot == old(device.snapshot) && device.writes == old(device.writes)
    {
      MotionSteps(s);
      RefreshSwitch(MotionSw, s);
      RefreshBar(MotionTimeoutBar, s);
      RefreshSwitch(RtaSw, s);
      RefreshBar(RtaTimeoutBar, s);
    }

    /** The smart mix section. */
    method RefreshSmartMix(s: Snapshot)
      requires Laid() && updating && device != null
      modifies bars.Values, switches.Values, device
      ensures forall b: BarId :: bars[b].State() == SectionBar(SmartMixSection, b, old(bars[b].State()), s) && bars[b].posted == old(bars[b].posted) && (bars[b].suppress ==> old(bars[b].suppress))
      ensures forall w: SwitchId :: switches[w].value == SectionSwitch(SmartMixSection, w, old(switches[w].value), s)
      ensures device == old(device) && updating == old(updating)
      ensures device.snapshot == old(device.snapshot) && device.writes == old(device.writes)
    {
      SmartMixSteps(s);
      RefreshSwitch(SmartMixSw, s);
      RefreshBar(SmartMixSpeedBar, s);
    }

    /** The light tab's controls after its mode; the colour-temperature bar is re-ranged before it is set. */
    method RefreshLightControls(s: Snapshot)
      requires Laid() && updating && device != null && GroupRefreshed(LightTab, s)
      modifies bars.Values, switches.Values, device
      ensures forall b: BarId :: bars[b].State() == TabBar(LightTab, b, old(bars[b].State()), s) && bars[b].posted == old(bars[b].posted) && (bars[b].suppress ==> old(bars[b].suppress))
      ensures forall w: SwitchId :: switches[w].value == TabSwitch(LightTab, w, old(switches[w].value), s)
      ensures device == old(device) && updating == old(updating)
      ensures device.snapshot == old(device.snapshot) && device.writes == old(device.writes)
    {
      LightSteps(s);
      RefreshLightLevel(s);
      RefreshLightAuto(s);
    }

    /** Brightness, then colour temperature, re-ranged before it is set, then dim to warm. */
    method RefreshLightLevel(s: Snapshot)
      requires Laid() && updating && device != null
      modifies bars.Values, switches.Values, device
      ensures forall b: BarId :: bars[b].State() == SectionBar(LightLevelSection, b, old(bars[b].State()), s) && bars[b].posted == old(bars[b].posted) && (bars[b].suppress ==> old(bars[b].suppress))
      ensures forall w: SwitchId :: switches[w].value == SectionSwitch(LightLevelSection, w, old(switches[w].value), s)
      ensures device == old(device) && updating == old(updating)
      ensures device.snapshot == old(device.snapshot) && device.writes == old(device.writes)
    {
      LightLevelSteps(s);
      RefreshBar(LightBrightBar, s);
      RangeColorTemperature(s);
      RefreshBar(LightCtBar, s);
      RefreshSwitch(DtwSw, s);
    }

    /** The light's motion timeout and its return to auto. */
    method RefreshLightAuto(s: Snapshot)
      requires Laid() && updating && device != null
      modifies bars.Values, switches.Values, device
      ensures forall b: BarId :: bars[b].State() == SectionBar(LightAutoSection, b, old(bars[b].State()), s) && bars[b].posted == old(bars[b].posted) && (bars[b].suppress ==> old(bars[b].suppress))
      ensures forall w: SwitchId :: switches[w].value == SectionSwitch(LightAutoSection, w, old(switches[w].value), s)
      ensures device == old(device) && updating == old(updating)
      ensures device.snapshot == old(device.snapshot) && device.writes == old(device.writes)
    {
      LightAutoSteps(s);
      RefreshBar(LightMotionTimeoutBar, s);
      RefreshSwitch(LightRtaSw, s);
      RefreshBar(LightRtaTimeoutBar, s);
    }

    /** The settings tab's part of a pass. */
    method RefreshSettings(s: Snapshot)
      requires Laid() && updating && device != null && LightPassReturns(s)
      modifies bars.Values, switches.Values, device
      ensures forall b: BarId :: bars[b].State() == old(bars[b].State()) && bars[b].posted == old(bars[b].posted) && (bars[b].suppress ==> old(bars[b].suppress))
      ensures forall w: SwitchId :: switches[w].value == TabSwitch(SettingsTab, w, old(switches[w].value), s)
      ensures device == old(device) && updating == old(updating)
      ensures device.snapshot == old(device.snapshot) && device.writes == old(device.writes)
    {
      SettingsSteps(s);
      RefreshSwitch(LedSw, s);
      RefreshSwitch(BeepSw, s);
      RefreshSwitch(IrSw, s);
    }

    /** Removes "-active" from every preset button. */
    static method UnmarkAll(current: seq<bool>) returns (marks: seq<bool>)
      ensures marks == seq(|current|, _ => false)
    {
      marks := current;
      var i := 0;
      while i < |marks|
        invariant 0 <= i <= |marks| == |current|
        invariant forall k :: 0 <= k < i ==> !marks[k]
      {
        marks := marks[i := false];
        i := i + 1;
      }
    }

    /** The position of the preset button whose id names the colour, or |PRESETS| when there is none. */
    static method FindPreset(color: int) returns (j: int)
      ensures 0 <= j <= |PRESETS|
      ensures j < |PRESETS| ==> PRESETS[j] == color
      ensures j == |PRESETS| ==> forall k :: 0 <= k < |PRESETS| ==> PRESETS[k] != color
    {
      var target := PresetButtonId(color);
      j := 0;
      while j < |PRESETS| && PresetButtonId(PRESETS[j]) != target
        invariant 0 <= j <= |PRESETS|
        invariant forall k :: 0 <= k < j ==> PRESETS[k] != color
      {
        j := j + 1;
      }
      if j < |PRESETS| {
        PresetButtonIdInjective(PRESETS[j], color);
      }
    }

    /**
     * The preset marks after unmarking every button and then marking the button whose
     * id names the colour, if there is one: exactly that colour's button is marked.
     */
    static method MarkPreset(current: seq<bool>, color: int) returns (marks: seq<bool>)
      requires |current| == |PRESETS|
      ensures marks == PresetMarks(color)
    {
      marks := UnmarkAll(current);
      var j := FindPreset(color);
      if j < |PRESETS| {
        PresetMarksOne(j, color);
        marks := marks[j := true];
      } else {
        PresetMarksNone(color);
      }
    }

    /** The fan tab's controls after its mode, section by section. */
    method RefreshFanControls(s: Snapshot)
      requires Laid() && updating && device != null && FanPassRuns(s)
      modifies bars.Values, switches.Values, device
      ensures forall b: BarId :: bars[b].State() == TabBar(FanTab, b, old(bars[b].State()), s) && bars[b].posted == old(bars[b].posted) && (bars[b].suppress ==> old(bars[b].suppress))
      ensures forall w: SwitchId :: switches[w].value == TabSwitch(FanTab, w, old(switches[w].value), s)
      ensures device == old(device) && updating == old(updating)
      ensures device.snapshot == old(device.snapshot) && device.writes == old(device.writes)
    {
      FanSteps(s);
      RefreshFanDrive(s);
      RefreshComfort(s);
      RefreshHeatAssist(s);
      RefreshMotion(s);
      RefreshSmartMix(s);
    }

    /** The fan tab's part of a pass; raised when the fan mode reading is not an OffOnAuto. */
    method RefreshFan(dev: Device) returns (raised: bool)
      requires Valid() && updating && device == dev
      modifies fanModeSel, dev, bars.Values, switches.Values
      ensures dev.snapshot == old(dev.snapshot) && dev.writes == old(dev.writes)
      ensures raised == !FanPassRuns(dev.snapshot)
      ensures fanModeSel.selected == RefreshedSelector(FanModeSel, old(fanModeSel.selected), dev.snapshot)
      ensures fanModeSel.posted == old(fanModeSel.posted) && (fanModeSel.suppress ==> old(fanModeSel.suppress))
      ensures lightModeSel.selected == old(lightModeSel.selected) && lightModeSel.posted == old(lightModeSel.posted)
      ensures lightModeSel.suppress == old(lightModeSel.suppress)
      ensures forall b: BarId :: bars[b].State() == TabBar(FanTab, b, old(bars[b].State()), dev.snapshot) && bars[b].posted == old(bars[b].posted) && (bars[b].suppress ==> old(bars[b].suppress))
      ensures forall w: SwitchId :: switches[w].value == TabSwitch(FanTab, w, old(switches[w].value), dev.snapshot)
    {
      var s := dev.snapshot;
      if FanMode in s.modes {
        var mode := ModeOf(s.modes[FanMode]);
        if mode.None? {
          return true;   // OffOnAuto(...) raises ValueError
        }
        fanModeSel.SetValueQuiet(mode.value);
      }
      raised := false;
      RefreshFanControls(s);
    }

    /**
     * The light tab's part of a pass: hides the tab without the light capability;
     * raised when the light mode reading is not an OffOnAuto.
     */
    method RefreshLight(dev: Device) returns (raised: bool)
      requires Valid() && updating && device == dev && FanPassRuns(dev.snapshot)
      modifies this, lightModeSel, dev, bars.Values, switches.Values
      ensures Valid() && updating && device == dev
      ensures dev.snapshot == old(dev.snapshot) && dev.writes == old(dev.writes)
      ensures raised == !LightPassReturns(dev.snapshot)
      ensures lightModeSel.selected == RefreshedSelector(LightModeSel, old(lightModeSel.selected), dev.snapshot)
      ensures lightModeSel.posted == old(lightModeSel.posted) && (lightModeSel.suppress ==> old(lightModeSel.suppress))
      ensures fanModeSel.selected == old(fanModeSel.selected) && fanModeSel.posted == old(fanModeSel.posted)
      ensures fanModeSel.suppress == old(fanModeSel.suppress)
      ensures forall b: BarId :: bars[b].State() == TabBar(LightTab, b, old(bars[b].State()), dev.snapshot) && bars[b].posted == old(bars[b].posted) && (bars[b].suppress ==> old(bars[b].suppress))
      ensures forall w: SwitchId :: switches[w].value == TabSwitch(LightTab, w, old(switches[w].value), dev.snapshot)
      ensures lightTabShown == RefreshedTabShown(LightTab, old(lightTabShown), dev.snapshot)
      ensures presetMarks == old(presetMarks) && nightlightTabShown == old(nightlightTabShown)
    {
      var s := dev.snapshot;
      raised := false;
      if !s.hasAnyLight {
        lightTabShown := false;
        return;
      }
      if LightMode in s.modes {
        var mode := ModeOf(s.modes[LightMode]);
        if mode.None? {
          return true;   // OffOnAuto(...) raises ValueError
        }
        lightModeSel.SetValueQuiet(mode.value);
      }
      RefreshLightControls(s);
    }

    /** The nightlight tab's switch and bars; the colour bar only when the colour is reported. */
    method RefreshNightlightControls(s: Snapshot)
      requires Laid() && updating && device != null
      modifies bars.Values, switches.Values, device
      ensures forall b: BarId :: bars[b].State() == SectionBar(NightlightSection, b, old(bars[b].State()), s) && bars[b].posted == old(bars[b].posted) && (bars[b].suppress ==> old(bars[b].suppress))
      ensures forall w: SwitchId :: switches[w].value == SectionSwitch(NightlightSection, w, old(switches[w].value), s)
      ensures device == old(device) && updating == old(updating)
      ensures device.snapshot == old(device.snapshot) && device.writes == old(device.writes)
    {
      NightlightSteps(s);
      RefreshSwitch(NlEnabledSw, s);
      RefreshBar(NlBrightBar, s);
      if NightlightColor in s.ints {
        RefreshBar(NlColorBar, s);
      }
    }

    /** The nightlight tab's part of a pass: hides the tab without the capability; marks the reported preset. */
    method RefreshNightlight(dev: Device)
      requires Valid() && updating && device == dev && LightPassReturns(dev.snapshot)
      modifies this, dev, bars.Values, switches.Values
      ensures Valid() && updating && device == dev
      ensures dev.snapshot == old(dev.snapshot) && dev.writes == old(dev.writes)
      ensures forall b: BarId :: bars[b].State() == TabBar(NightlightTab, b, old(bars[b].State()), dev.snapshot) && bars[b].posted == old(bars[b].posted) && (bars[b].suppress ==> old(bars[b].suppress))
      ensures forall w: SwitchId :: switches[w].value == TabSwitch(NightlightTab, w, old(switches[w].value), dev.snapshot)
      ensures presetMarks == RefreshedPresets(old(presetMarks), dev.snapshot)
      ensures nightlightTabShown == RefreshedTabShown(NightlightTab, old(nightlightTabShown), dev.snapshot)
      ensures lightTabShown == old(lightTabShown)
    {
      var s := dev.snapshot;
      if !s.hasNightlight {
        nightlightTabShown := false;
        return;
      }
      NightlightTabSteps(s);
      RefreshNightlightControls(s);
      if NightlightColor in s.ints {
        presetMarks := MarkPreset(presetMarks, s.ints[NightlightColor]);
      }
    }

    /**
     * The tabs' parts of a pass in order; a part that raises ends the pass. Each tab's
     * controls are refreshed from the state the tabs before it left.
     */
    method RefreshEachTab(dev: Device) returns (raised: bool)
      requires Valid() && updating && device == dev
      modifies this, bars.Values, switches.Values, fanModeSel, lightModeSel, dev
      ensures Valid() && updating && device == dev
      ensures dev.snapshot == old(dev.snapshot) && dev.writes == old(dev.writes)
      ensures raised == RefreshRaises(dev.snapshot)
      ensures forall b: BarId :: bars[b].posted == old(bars[b].posted) && (bars[b].suppress ==> old(bars[b].suppress))
      ensures fanModeSel.posted == old(fanModeSel.posted) && lightModeSel.posted == old(lightModeSel.posted)
      ensures (fanModeSel.suppress ==> old(fanModeSel.suppress)) && (lightModeSel.suppress ==> old(lightModeSel.suppress))
      ensures forall b: BarId ::
                bars[b].State() == TabBar(NightlightTab, b, TabBar(LightTab, b,
                  TabBar(FanTab, b, old(bars[b].State()), dev.snapshot), dev.snapshot), dev.snapshot)
      ensures forall w: SwitchId ::
                switches[w].value == TabSwitch(SettingsTab, w, TabSwitch(NightlightTab, w, TabSwitch(LightTab, w,
                  TabSwitch(FanTab, w, old(switches[w].value), dev.snapshot), dev.snapshot), dev.snapshot), dev.snapshot)
      ensures fanModeSel.selected == RefreshedSelector(FanModeSel, old(fanModeSel.selected), dev.snapshot)
      ensures lightModeSel.selected == RefreshedSelector(LightModeSel, old(lightModeSel.selected), dev.snapshot)
      ensures presetMarks == RefreshedPresets(old(presetMarks), dev.snapshot)
      ensures lightTabShown == RefreshedTabShown(LightTab, old(lightTabShown), dev.snapshot)
      ensures nightlightTabShown == RefreshedTabShown(NightlightTab, old(nightlightTabShown), dev.snapshot)
    {
      raised := RefreshFan(dev);
      if !raised {
        raised := RefreshLight(dev);
        if !raised {
          RefreshNightlight(dev);
          RefreshSettings(dev.snapshot);
        }
      }
    }

    /** The tabs' parts of a pass: every control ends as the whole pass leaves it. */
    method RefreshTabs(dev: Device) returns (raised: bool)
      requires Valid() && updating && device == dev
      modifies this, bars.Values, switches.Values, fanModeSel, lightModeSel, dev
      ensures Valid() && updating && device == dev
      ensures dev.snapshot == old(dev.snapshot) && dev.writes == old(dev.writes)
      ensures raised == RefreshRaises(dev.snapshot)
      ensures forall b: BarId :: bars[b].posted == old(bars[b].posted) && (bars[b].suppress ==> old(bars[b].suppress))
      ensures fanModeSel.posted == old(fanModeSel.posted) && lightModeSel.posted == old(lightModeSel.posted)
      ensures (fanModeSel.suppress ==> old(fanModeSel.suppress)) && (lightModeSel.suppress ==> old(lightModeSel.suppress))
      ensures forall b: BarId :: bars[b].State() == RefreshedBar(b, old(bars[b].State()), dev.snapshot)
      ensures forall w: SwitchId :: switches[w].value == RefreshedSwitch(w, old(switches[w].value), dev.snapshot)
      ensures fanModeSel.selected == RefreshedSelector(FanModeSel, old(fanModeSel.selected), dev.snapshot)
      ensures lightModeSel.selected == RefreshedSelector(LightModeSel, old(lightModeSel.selected), dev.snapshot)
      ensures presetMarks == RefreshedPresets(old(presetMarks), dev.snapshot)
      ensures lightTabShown == RefreshedTabShown(LightTab, old(lightTabShown), dev.snapshot)
      ensures nightlightTabShown == RefreshedTabShown(NightlightTab, old(nightlightTabShown), dev.snapshot)
    {
      raised := RefreshEachTab(dev);
      forall b: BarId
        ensures bars[b].State() == RefreshedBar(b, old(bars[b].State()), dev.snapshot)
      {
        RefreshedBarByTabs(b, old(bars[b].State()), dev.snapshot);
      }
      forall w: SwitchId
        ensures switches[w].value == RefreshedSwitch(w, old(switches[w].value), dev.snapshot)
      {
        RefreshedSwitchByTabs(w, old(switches[w].value), dev.snapshot);
      }
    }

    /**
     * A refresh pass: every tab's controls copied from the device's snapshot with updating
     * set, so that nothing is posted and nothing is written; updating is cleared again
     * whether or not a step raises.
     */
    method RefreshAll() returns (raised: bool)
      requires Valid()
      modifies this, bars.Values, switches.Values, fanModeSel, lightModeSel, device
      ensures Valid() && device == old(device)
      ensures device == null ==> !raised && unchanged(this, bars.Values, switches.Values, fanModeSel, lightModeSel)
      ensures device != null ==> !updating
      ensures device != null ==> device.snapshot == old(device.snapshot) && device.writes == old(device.writes)
      ensures device != null ==> raised == RefreshRaises(device.snapshot)
      ensures forall b: BarId :: bars[b].posted == old(bars[b].posted) && (bars[b].suppress ==> old(bars[b].suppress))
      ensures fanModeSel.posted == old(fanModeSel.posted) && lightModeSel.posted == old(lightModeSel.posted)
      ensures (fanModeSel.suppress ==> old(fanModeSel.suppress)) && (lightModeSel.suppress ==> old(lightModeSel.suppress))
      ensures old(Quiet()) ==> Quiet()
      ensures device != null ==> forall b: BarId :: bars[b].State() == RefreshedBar(b, old(bars[b].State()), device.snapshot)
      ensures device != null ==> forall w: SwitchId :: switches[w].value == RefreshedSwitch(w, old(switches[w].value), device.snapshot)
      ensures device != null ==>
        && fanModeSel.selected == RefreshedSelector(FanModeSel, old(fanModeSel.selected), device.snapshot)
        && lightModeSel.selected == RefreshedSelector(LightModeSel, old(lightModeSel.selected), device.snapshot)
      ensures device != null ==> presetMarks == RefreshedPresets(old(presetMarks), device.snapshot)
      ensures device != null ==>
        && lightTabShown == RefreshedTabShown(LightTab, old(lightTabShown), device.snapshot)
        && nightlightTabShown == RefreshedTabShown(NightlightTab, old(nightlightTabShown), device.snapshot)
    {
      var dev := device;
      if dev == null {
        return false;
      }
      updating := true;
      raised := RefreshTabs(dev);
      updating := false;   // the finally clause
    }

    // ------------------------------------------------------------ user handlers

    /** A selector's Changed message: writes the tab's mode, unless a refresh is running or no device is attached. */
    method OnModeChanged(wid: string, mode: OffOnAuto)
      modifies device
      ensures device != null ==> device.snapshot == old(device.snapshot)
      ensures device != null ==> device.writes == old(device.writes) + (if updating then [] else ModeEventWrites(wid, mode))
    {
      if updating || device == null {
        return;
      }
      if wid == "fan-mode-sel" {
        device.Set(SetMode(FanMode, mode));
      } else if wid == "light-mode-sel" {
        device.Set(SetMode(LightMode, mode));
      }
    }

    /** The prerequisite of a bar edit: "mode = ON" when the mode is known and not ON. */
    static method TurnModeOn(dev: Device, mf: ModeField) returns (raised: bool)
      modifies dev
      ensures dev.snapshot == old(dev.snapshot)
      ensures raised == (mf in dev.snapshot.modes && ModeOf(dev.snapshot.modes[mf]).None?)
      ensures dev.writes == old(dev.writes) +
        (if mf in dev.snapshot.modes && ModeOf(dev.snapshot.modes[mf]).Some? && ModeOf(dev.snapshot.modes[mf]).value != On
         then [SetMode(mf, On)] else [])
    {
      raised := false;
      if mf in dev.snapshot.modes {
        var m := ModeOf(dev.snapshot.modes[mf]);
        if m.None? {
          return true;   // OffOnAuto(...) raises ValueError
        }
        if m.value != On {
          dev.Set(SetMode(mf, On));
        }
      }
    }

    /**
     * A bar's Changed message: the writes of ValueEventWrites, unless a refresh is running
     * or no device is attached; raised when an unreadable mode stops it before any write.
     */
    method OnValueChanged(wid: string, v: int) returns (raised: bool)
      modifies device
      ensures device != null ==> device.snapshot == old(device.snapshot)
      ensures raised == (device != null && !updating && ValueEventWrites(device.snapshot, wid, v).Raises?)
      ensures device != null ==>
        device.writes == old(device.writes) + (if updating || raised then [] else ValueEventWrites(device.snapshot, wid, v).writes)
    {
      raised := false;
      if updating || device == null {
        return;
      }
      var dev := device;
      // The handler's chain of id comparisons is the widget-id table of the layout.
      match BarOfWidgetId(wid)
      case None =>
      case Some(SpeedBar) =>
        raised := TurnModeOn(dev, FanMode);
        if !raised {
          dev.Set(SetInt(Speed, v));
        }
      case Some(LightBrightBar) =>
        raised := TurnModeOn(dev, LightMode);
        if !raised {
          dev.Set(SetInt(LightBrightnessPercent, v));
        }
      case Some(LightCtBar) =>
        raised := TurnModeOn(dev, LightMode);
        if !raised {
          dev.Set(SetInt(LightColorTemperature, v));
        }
      case Some(SmartMixSpeedBar) => dev.Set(SetInt(SmartMixSpeed, v));
      case Some(ComfortTempBar) => dev.Set(SetInt(ComfortIdealTemperature, v));
      case Some(ComfortMinBar) => dev.Set(SetInt(ComfortMinSpeed, v));
      case Some(ComfortMaxBar) => dev.Set(SetInt(ComfortMaxSpeed, v));
      case Some(HeatSpeedBar) => dev.Set(SetInt(ComfortHeatAssistSpeed, v));
      case Some(MotionTimeoutBar) => dev.Set(SetInt(MotionSenseTimeout, v));
      case Some(RtaTimeoutBar) => dev.Set(SetInt(ReturnToAutoTimeout, v));
      case Some(LightMotionTimeoutBar) => dev.Set(SetInt(LightAutoMotionTimeout, v));
      case Some(LightRtaTimeoutBar) => dev.Set(SetInt(LightReturnToAutoTimeout, v));
      case Some(NlBrightBar) => dev.Set(SetInt(NightlightBrightnessPercent, v));
      case Some(NlColorBar) => dev.Set(SetInt(NightlightColor, v));
    }

    /** A preset button press: "nl-c-<n>" writes colour n; raised when the suffix is not a number. */
    method OnNlColorPreset(bid: string) returns (raised: bool)
      modifies device
      ensures device != null ==> device.snapshot == old(device.snapshot)
      ensures raised == (device != null && !updating && PresetEventWrites(bid).Raises?)
      ensures device != null ==>
        device.writes == old(device.writes) + (if updating || raised then [] else PresetEventWrites(bid).writes)
    {
      raised := false;
      if updating || device == null {
        return;
      }
      if |bid| >= |PRESET_PREFIX| && bid[..|PRESET_PREFIX|] == PRESET_PREFIX {
        var n := ParseInt(bid[|PRESET_PREFIX|..]);
        if n.None? {
          return true;   // int(...) raises ValueError
        }
        device.Set(SetInt(NightlightColor, n.value));
      }
    }

    /** A switch's Changed message: writes the field the switch table gives for its id, if any. */
    method OnSwitchChanged(sid: string, on: bool)
      modifies device
      ensures device != null ==> device.snapshot == old(device.snapshot)
      ensures device != null ==> device.writes == old(device.writes) + (if updating then [] else SwitchEventWrites(sid, on))
    {
      if updating || device == null {
        return;
      }
      if sid in SWITCH_MAP {
        device.Set(SetFlag(SWITCH_MAP[sid], on));
      }
    }

    /**
     * A press of one of bar b's buttons, with the Changed message it may post delivered
     * to the app's handler.
     */
    method PressBarButton(b: BarId, buttonId: string) returns (raised: bool)
      requires Laid() && Named()
      modifies bars[b], device
      ensures var p := PressOf(bars[b].barId, buttonId);
        bars[b].State() == old(bars[b].State()).(value := if p.None? then old(bars[b].value) else Pressed(old(bars[b].State()), bars[b].step, p.value))
      ensures bars[b].suppress == old(bars[b].suppress)
      ensures var posts := bars[b].value != old(bars[b].value) && !bars[b].suppress;
        && bars[b].posted == old(bars[b].posted) + (if posts then [bars[b].value] else [])
        && (device != null ==> device.snapshot == old(device.snapshot))
        && raised == (posts && device != null && !updating && ValueEventWrites(device.snapshot, BarWidgetId(b), bars[b].value).Raises?)
        && (device != null ==>
              device.writes == old(device.writes) +
                (if !posts || updating || raised then [] else ValueEventWrites(device.snapshot, BarWidgetId(b), bars[b].value).writes))
    {
      var bar := bars[b];
      var before := |bar.posted|;
      bar.OnButton(buttonId);
      raised := false;
      if |bar.posted| > before {
        raised := OnValueChanged(bar.id, bar.posted[|bar.posted| - 1]);
      }
    }
  }
}

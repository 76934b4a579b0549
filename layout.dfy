/**
 * The fixed wiring of the dashboard: which widgets exist, the widget ids they carry,
 * the tab each sits on, the device field each shows, and the bounds each bar starts with.
 */
module Layout {
  import opened Opt
  import opened DeviceModel
  import opened Decimal

  /** The tabs whose controls are refreshed from the device. */
  datatype Group = FanTab | LightTab | NightlightTab | SettingsTab

  datatype BarId =
    | SpeedBar | ComfortTempBar | ComfortMinBar | ComfortMaxBar | HeatSpeedBar
    | MotionTimeoutBar | RtaTimeoutBar | SmartMixSpeedBar
    | LightBrightBar | LightCtBar | LightMotionTimeoutBar | LightRtaTimeoutBar
    | NlBrightBar | NlColorBar

  /** Every bar once. */
  const ALL_BARS: seq<BarId> := [
    SpeedBar, ComfortTempBar, ComfortMinBar, ComfortMaxBar, HeatSpeedBar,
    MotionTimeoutBar, RtaTimeoutBar, SmartMixSpeedBar,
    LightBrightBar, LightCtBar, LightMotionTimeoutBar, LightRtaTimeoutBar,
    NlBrightBar, NlColorBar]

  lemma AllBarsListed(b: BarId)
    ensures b in ALL_BARS
  {
  }

  datatype SwitchId =
    | WhooshSw | EcoSw | ReverseSw | ComfortSw | HeatAssistSw | HeatReverseSw
    | MotionSw | RtaSw | SmartMixSw
    | DtwSw | LightRtaSw
    | NlEnabledSw
    | LedSw | BeepSw | IrSw

  /** Every switch once. */
  const ALL_SWITCHES: seq<SwitchId> := [
    WhooshSw, EcoSw, ReverseSw, ComfortSw, HeatAssistSw, HeatReverseSw,
    MotionSw, RtaSw, SmartMixSw, DtwSw, LightRtaSw, NlEnabledSw, LedSw, BeepSw, IrSw]

  lemma AllSwitchesListed(w: SwitchId)
    ensures w in ALL_SWITCHES
  {
  }

  datatype SelectorId = FanModeSel | LightModeSel

  /** The widget id a bar's Changed message is routed by. */
  function BarWidgetId(b: BarId): string {
    match b
    case SpeedBar => "fan-speed"
    case ComfortTempBar => "comfort-temp-bar"
    case ComfortMinBar => "comfort-min-bar"
    case ComfortMaxBar => "comfort-max-bar"
    case HeatSpeedBar => "heat-speed-bar"
    case MotionTimeoutBar => "motion-timeout-bar"
    case RtaTimeoutBar => "rta-timeout-bar"
    case SmartMixSpeedBar => "smartmix-speed-bar"
    case LightBrightBar => "light-bright-bar"
    case LightCtBar => "light-ct-bar"
    case LightMotionTimeoutBar => "light-motion-timeout-bar"
    case LightRtaTimeoutBar => "light-rta-timeout-bar"
    case NlBrightBar => "nl-bright-bar"
    case NlColorBar => "nl-color-bar"
  }

  /** The bar a widget id belongs to, if any: exactly the bar that carries that id. */
  function BarOfWidgetId(wid: string): (r: Option<BarId>)
    ensures r.Some? ==> BarWidgetId(r.value) == wid
    ensures r.None? ==> forall b: BarId :: BarWidgetId(b) != wid
  {
    if wid == "fan-speed" then Some(SpeedBar)
    else if wid == "comfort-temp-bar" then Some(ComfortTempBar)
    else if wid == "comfort-min-bar" then Some(ComfortMinBar)
    else if wid == "comfort-max-bar" then Some(ComfortMaxBar)
    else if wid == "heat-speed-bar" then Some(HeatSpeedBar)
    else if wid == "motion-timeout-bar" then Some(MotionTimeoutBar)
    else if wid == "rta-timeout-bar" then Some(RtaTimeoutBar)
    else if wid == "smartmix-speed-bar" then Some(SmartMixSpeedBar)
    else if wid == "light-bright-bar" then Some(LightBrightBar)
    else if wid == "light-ct-bar" then Some(LightCtBar)
    else if wid == "light-motion-timeout-bar" then Some(LightMotionTimeoutBar)
    else if wid == "light-rta-timeout-bar" then Some(LightRtaTimeoutBar)
    else if wid == "nl-bright-bar" then Some(NlBrightBar)
    else if wid == "nl-color-bar" then Some(NlColorBar)
    else None
  }

  /** The id table and its lookup agree: routing a bar's own id finds that bar. */
  lemma BarWidgetIdRoundTrip(b: BarId)
    ensures BarOfWidgetId(BarWidgetId(b)) == Some(b)
  {
  }

  /**
   * The prefix of a bar's button ids: its bar_id, or its widget id when it has none
   * (only the speed bar); every bar_id is its widget id without the "-bar" ending.
   */
  function BarButtonPrefix(b: BarId): (r: string)
    ensures b == SpeedBar ==> r == BarWidgetId(b)
    ensures b != SpeedBar ==> BarWidgetId(b) == r + "-bar"
  {
    match b
    case SpeedBar => "fan-speed"
    case ComfortTempBar => "comfort-temp"
    case ComfortMinBar => "comfort-min"
    case ComfortMaxBar => "comfort-max"
    case HeatSpeedBar => "heat-speed"
    case MotionTimeoutBar => "motion-timeout"
    case RtaTimeoutBar => "rta-timeout"
    case SmartMixSpeedBar => "smartmix-speed"
    case LightBrightBar => "light-bright"
    case LightCtBar => "light-ct"
    case LightMotionTimeoutBar => "light-motion-timeout"
    case LightRtaTimeoutBar => "light-rta-timeout"
    case NlBrightBar => "nl-bright"
    case NlColorBar => "nl-color"
  }

  /** The bar's bounds and step as laid out; the nightlight colour range comes from the library. */
  function BarBounds(b: BarId, nlColorMin: int, nlColorMax: int): (r: (int, int, int))
    ensures b != NlColorBar ==> 0 <= r.0 < r.1
    ensures b == NlColorBar ==> r.0 == nlColorMin && r.1 == nlColorMax
    ensures r.2 >= 1
  {
    match b
    case SpeedBar => (0, 7, 1)
    case ComfortTempBar => (10, 35, 1)
    case ComfortMinBar => (0, 7, 1)
    case ComfortMaxBar => (0, 7, 1)
    case HeatSpeedBar => (0, 7, 1)
    case MotionTimeoutBar => (0, 10800, 60)
    case RtaTimeoutBar => (0, 10800, 60)
    case SmartMixSpeedBar => (1, 7, 1)
    case LightBrightBar => (0, 100, 5)
    case LightCtBar => (2200, 5000, 100)
    case LightMotionTimeoutBar => (0, 10800, 60)
    case LightRtaTimeoutBar => (0, 10800, 60)
    case NlBrightBar => (1, 100, 5)
    case NlColorBar => (nlColorMin, nlColorMax, 1)
  }

  /**
   * The parts of a refresh pass, in the order the refresh code takes them: the fan tab's
   * commented sections (speed and direction, comfort, heat assist, motion and return to
   * auto, smart mix), the light tab in two (level and colour, then motion and return to
   * auto), then one part for each other tab.
   */
  datatype Section = FanDriveSection | ComfortSection | HeatAssistSection | MotionSection | SmartMixSection
    | LightLevelSection | LightAutoSection | NightlightSection | SettingsSection

  function SectionGroup(p: Section): Group {
    match p
    case FanDriveSection | ComfortSection | HeatAssistSection | MotionSection | SmartMixSection => FanTab
    case LightLevelSection | LightAutoSection => LightTab
    case NightlightSection => NightlightTab
    case SettingsSection => SettingsTab
  }

  function BarSection(b: BarId): Section {
    match b
    case SpeedBar => FanDriveSection
    case ComfortTempBar | ComfortMinBar | ComfortMaxBar => ComfortSection
    case HeatSpeedBar => HeatAssistSection
    case MotionTimeoutBar | RtaTimeoutBar => MotionSection
    case SmartMixSpeedBar => SmartMixSection
    case LightBrightBar | LightCtBar => LightLevelSection
    case LightMotionTimeoutBar | LightRtaTimeoutBar => LightAutoSection
    case NlBrightBar | NlColorBar => NightlightSection
  }

  /** The tab a bar sits on. */
  function BarGroup(b: BarId): Group {
    SectionGroup(BarSection(b))
  }

  /** The device field a bar shows and writes. */
  function BarField(b: BarId): IntField {
    match b
    case SpeedBar => Speed
    case ComfortTempBar => ComfortIdealTemperature
    case ComfortMinBar => ComfortMinSpeed
    case ComfortMaxBar => ComfortMaxSpeed
    case HeatSpeedBar => ComfortHeatAssistSpeed
    case MotionTimeoutBar => MotionSenseTimeout
    case RtaTimeoutBar => ReturnToAutoTimeout
    case SmartMixSpeedBar => SmartMixSpeed
    case LightBrightBar => LightBrightnessPercent
    case LightCtBar => LightColorTemperature
    case LightMotionTimeoutBar => LightAutoMotionTimeout
    case LightRtaTimeoutBar => LightReturnToAutoTimeout
    case NlBrightBar => NightlightBrightnessPercent
    case NlColorBar => NightlightColor
  }

  /** The mode that must be ON for a change of this bar to take effect, if any. */
  function ModeGate(b: BarId): Option<ModeField> {
    match b
    case SpeedBar => Some(FanMode)
    case LightBrightBar | LightCtBar => Some(LightMode)
    case _ => None
  }

  /** No two bars show the same field, so each field has one bar that writes it. */
  lemma BarFieldInjective(a: BarId, b: BarId)
    ensures BarField(a) == BarField(b) <==> a == b
  {
  }

  function SwitchWidgetId(w: SwitchId): string {
    match w
    case WhooshSw => "whoosh-sw"
    case EcoSw => "eco-sw"
    case ReverseSw => "reverse-sw"
    case ComfortSw => "comfort-sw"
    case HeatAssistSw => "heat-assist-sw"
    case HeatReverseSw => "heat-reverse-sw"
    case MotionSw => "motion-sw"
    case RtaSw => "rta-sw"
    case SmartMixSw => "smartmix-sw"
    case DtwSw => "dtw-sw"
    case LightRtaSw => "light-rta-sw"
    case NlEnabledSw => "nl-enabled-sw"
    case LedSw => "led-sw"
    case BeepSw => "beep-sw"
    case IrSw => "ir-sw"
  }

  function SwitchSection(w: SwitchId): Section {
    match w
    case WhooshSw | EcoSw | ReverseSw => FanDriveSection
    case ComfortSw => ComfortSection
    case HeatAssistSw | HeatReverseSw => HeatAssistSection
    case MotionSw | RtaSw => MotionSection
    case SmartMixSw => SmartMixSection
    case DtwSw => LightLevelSection
    case LightRtaSw => LightAutoSection
    case NlEnabledSw => NightlightSection
    case LedSw | BeepSw | IrSw => SettingsSection
  }

  /** The tab a switch sits on. */
  function SwitchGroup(w: SwitchId): Group {
    SectionGroup(SwitchSection(w))
  }

  /** The device field a switch is refreshed from. */
  function SwitchFlag(w: SwitchId): BoolField {
    match w
    case WhooshSw => WhooshEnable
    case EcoSw => EcoEnable
    case ReverseSw => ReverseEnable
    case ComfortSw => AutoComfortEnable
    case HeatAssistSw => ComfortHeatAssistEnable
    case HeatReverseSw => ComfortHeatAssistReverseEnable
    case MotionSw => MotionSenseEnable
    case RtaSw => ReturnToAutoEnable
    case SmartMixSw => SmartMixEnable
    case DtwSw => LightDimToWarmEnable
    case LightRtaSw => LightReturnToAutoEnable
    case NlEnabledSw => NightlightEnabled
    case LedSw => LedIndicatorsEnable
    case BeepSw => FanBeepEnable
    case IrSw => LegacyIrRemoteEnable
  }

  /** The switch handler's own table from switch id to the field it writes. */
  const SWITCH_MAP: map<string, BoolField> := map[
    "whoosh-sw" := WhooshEnable,
    "eco-sw" := EcoEnable,
    "reverse-sw" := ReverseEnable,
    "comfort-sw" := AutoComfortEnable,
    "heat-assist-sw" := ComfortHeatAssistEnable,
    "heat-reverse-sw" := ComfortHeatAssistReverseEnable,
    "motion-sw" := MotionSenseEnable,
    "rta-sw" := ReturnToAutoEnable,
    "smartmix-sw" := SmartMixEnable,
    "dtw-sw" := LightDimToWarmEnable,
    "light-rta-sw" := LightReturnToAutoEnable,
    "nl-enabled-sw" := NightlightEnabled,
    "led-sw" := LedIndicatorsEnable,
    "beep-sw" := FanBeepEnable,
    "ir-sw" := LegacyIrRemoteEnable
  ]

  /**
   * The handler's table agrees with the refresh code: every switch writes the very
   * field it is refreshed from, and no other switch writes that field.
   */
  lemma SwitchMapMatchesSwitches(w: SwitchId, v: SwitchId)
    ensures SwitchWidgetId(w) in SWITCH_MAP && SWITCH_MAP[SwitchWidgetId(w)] == SwitchFlag(w)
    ensures SwitchFlag(w) == SwitchFlag(v) ==> w == v
  {
  }

  function SelectorWidgetId(sel: SelectorId): string {
    match sel
    case FanModeSel => "fan-mode-sel"
    case LightModeSel => "light-mode-sel"
  }

  function SelectorGroup(sel: SelectorId): Group {
    match sel
    case FanModeSel => FanTab
    case LightModeSel => LightTab
  }

  function SelectorField(sel: SelectorId): ModeField {
    match sel
    case FanModeSel => FanMode
    case LightModeSel => LightMode
  }

  /** The nightlight preset buttons, in the order they are laid out. */
  const PRESETS: seq<int> := [1, 8, 5, 2, 4, 3, 6, 7, 9]

  const PRESET_PREFIX: string := "nl-c-"

  /** The id of the preset button for colour value n. */
  function PresetButtonId(n: int): string {
    PRESET_PREFIX + IntText(n)
  }

  /** Two preset ids are equal exactly when their colour values are. */
  lemma PresetButtonIdInjective(a: int, b: int)
    ensures PresetButtonId(a) == PresetButtonId(b) <==> a == b
  {
    if PresetButtonId(a) == PresetButtonId(b) {
      assert IntText(a) == PresetButtonId(a)[|PRESET_PREFIX|..];
      assert IntText(b) == PresetButtonId(b)[|PRESET_PREFIX|..];
      IntTextInjective(a, b);
    }
  }

  /** No colour has two preset buttons. */
  lemma PresetsDistinct()
    ensures forall k, l :: 0 <= k < l < |PRESETS| ==> PRESETS[k] != PRESETS[l]
  {
  }
}

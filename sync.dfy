/**
 * The rules of the synchronisation engine, as functions of the device snapshot:
 * which device writes one user edit turns into, and what one refresh pass leaves
 * on each control.
 */
module Sync {
  import opened Opt
  import opened Decimal
  import opened DeviceModel
  import opened Controls
  import opened Layout

  /** What a user handler does: the writes it issues, or a ValueError before any write. */
  datatype Handled = Wrote(writes: seq<Write>) | Raises

  // ---------------------------------------------------------------- user edits

  /**
   * A bar's new value: the prerequisite "mode = ON" when the bar's mode is known and
   * not ON, then the bar's own field. A mode value that is not an OffOnAuto raises.
   */
  function ValueEventWrites(s: Snapshot, wid: string, v: int): Handled {
    match BarOfWidgetId(wid)
    case None => Wrote([])
    case Some(b) =>
      var primary := SetInt(BarField(b), v);
      match ModeGate(b)
      case None => Wrote([primary])
      case Some(mf) =>
        if mf !in s.modes then Wrote([primary])
        else match ModeOf(s.modes[mf])
          case None => Raises
          case Some(m) => if m != On then Wrote([SetMode(mf, On), primary]) else Wrote([primary])
  }

  /** A selector's new mode is written to the mode of the selector's own tab. */
  function ModeEventWrites(wid: string, m: OffOnAuto): seq<Write> {
    if wid == SelectorWidgetId(FanModeSel) then [SetMode(FanMode, m)]
    else if wid == SelectorWidgetId(LightModeSel) then [SetMode(LightMode, m)]
    else []
  }

  /** A switch writes the field its id maps to in the switch table; an unmapped id writes nothing. */
  function SwitchEventWrites(sid: string, on: bool): seq<Write> {
    if sid in SWITCH_MAP then [SetFlag(SWITCH_MAP[sid], on)] else []
  }

  /** A preset button "nl-c-<n>" writes colour n; a suffix int() cannot read raises. */
  function PresetEventWrites(bid: string): Handled {
    if |bid| >= |PRESET_PREFIX| && bid[..|PRESET_PREFIX|] == PRESET_PREFIX then
      match ParseInt(bid[|PRESET_PREFIX|..])
      case None => Raises
      case Some(n) => Wrote([SetInt(NightlightColor, n)])
    else Wrote([])
  }

  /** The end-to-end case: speed 5 chosen while the fan is in AUTO turns the fan ON first. */
  lemma SpeedInAutoTurnsFanOn(s: Snapshot)
    requires FanMode in s.modes && s.modes[FanMode] == ModeIndex(Auto)
    ensures ValueEventWrites(s, "fan-speed", 5) == Wrote([SetMode(FanMode, On), SetInt(Speed, 5)])
  {
  }

  /**
   * Every bar edit ends with the bar's own field set to the chosen value; it is
   * preceded by exactly one write, "mode = ON", exactly when the bar's mode is
   * known, readable and not ON; it raises exactly when that mode is not readable.
   */
  lemma ValueEventShape(s: Snapshot, b: BarId, v: int)
    ensures var r := ValueEventWrites(s, BarWidgetId(b), v);
      && (r.Raises? <==> ModeGate(b).Some? && ModeGate(b).value in s.modes && ModeOf(s.modes[ModeGate(b).value]).None?)
      && (r.Wrote? ==> 1 <= |r.writes| <= 2 && r.writes[|r.writes| - 1] == SetInt(BarField(b), v))
      && (r.Wrote? && |r.writes| == 2 <==>
            ModeGate(b).Some? && ModeGate(b).value in s.modes
            && ModeOf(s.modes[ModeGate(b).value]).Some? && ModeOf(s.modes[ModeGate(b).value]).value != On)
      && (r.Wrote? && |r.writes| == 2 ==> r.writes[0] == SetMode(ModeGate(b).value, On))
  {
    BarWidgetIdRoundTrip(b);
  }

  /** An id that names no bar writes nothing. */
  lemma ValueEventUnknownWidget(s: Snapshot, wid: string, v: int)
    requires BarOfWidgetId(wid).None?
    ensures ValueEventWrites(s, wid, v) == Wrote([])
  {
  }

  /** A mode edit writes at most one field, a mode field, with the chosen mode. */
  lemma ModeEventWritesMode(wid: string, m: OffOnAuto)
    ensures |ModeEventWrites(wid, m)| <= 1
    ensures forall w :: w in ModeEventWrites(wid, m) ==> w.SetMode? && w.mode == m
    ensures wid == "fan-mode-sel" ==> ModeEventWrites(wid, m) == [SetMode(FanMode, m)]
    ensures wid == "light-mode-sel" ==> ModeEventWrites(wid, m) == [SetMode(LightMode, m)]
  {
  }

  /** Flipping a switch writes exactly the field that switch shows. */
  lemma SwitchEventWritesShownField(w: SwitchId, on: bool)
    ensures SwitchEventWrites(SwitchWidgetId(w), on) == [SetFlag(SwitchFlag(w), on)]
  {
    SwitchMapMatchesSwitches(w, w);
  }

  /** Pressing the preset button of colour n writes colour n, and nothing else. */
  lemma PresetEventRoundTrip(n: int)
    ensures PresetEventWrites(PresetButtonId(n)) == Wrote([SetInt(NightlightColor, n)])
  {
    var bid := PresetButtonId(n);
    assert bid[..|PRESET_PREFIX|] == PRESET_PREFIX;
    assert bid[|PRESET_PREFIX|..] == IntText(n);
    IntTextRoundTrip(n);
  }

  // ---------------------------------------------------------------- refresh pass

  /** OffOnAuto(...) would accept this mode field's reading (or there is none to convert). */
  predicate ModeReadable(s: Snapshot, mf: ModeField) {
    mf !in s.modes || ModeOf(s.modes[mf]).Some?
  }

  /** The fan tab's refresh gets past its mode conversion. */
  predicate FanPassRuns(s: Snapshot) {
    ModeReadable(s, FanMode)
  }

  /** The light tab's refresh returns normally (hidden, or past its mode conversion). */
  predicate LightPassReturns(s: Snapshot) {
    FanPassRuns(s) && (!s.hasAnyLight || ModeReadable(s, LightMode))
  }

  /** A refresh pass raises ValueError when a mode reading it converts is not an OffOnAuto. */
  predicate RefreshRaises(s: Snapshot) {
    !LightPassReturns(s)
  }

  /** Whether a tab's controls are written by a refresh pass over s. */
  predicate GroupRefreshed(g: Group, s: Snapshot) {
    match g
    case FanTab => FanPassRuns(s)
    case LightTab => FanPassRuns(s) && s.hasAnyLight && ModeReadable(s, LightMode)
    case NightlightTab => LightPassReturns(s) && s.hasNightlight
    case SettingsTab => LightPassReturns(s)
  }

  /**
   * A bar after a refresh pass: if its tab is refreshed and its field is known, it shows
   * that value moved into its bounds. The colour-temperature bar first takes the
   * device's warmest and coolest temperatures as its bounds, when both are known.
   */
  function RefreshedBar(b: BarId, st: BarState, s: Snapshot): BarState {
    if GroupRefreshed(BarGroup(b), s) then ReportedBar(b, Ranged(b, st, s), s) else st
  }

  /** The colour-temperature bar takes the device's warmest and coolest temperatures as its bounds, when both are known. */
  function Ranged(b: BarId, st: BarState, s: Snapshot): BarState {
    if b == LightCtBar && LightWarmestColorTemperature in s.ints && LightCoolestColorTemperature in s.ints
    then BarState(st.value, s.ints[LightWarmestColorTemperature], s.ints[LightCoolestColorTemperature])
    else st
  }

  /** A bar set quietly to its reported field, if any, within its current bounds. */
  function ReportedBar(b: BarId, st: BarState, s: Snapshot): BarState {
    if BarField(b) in s.ints then st.(value := Clamp(st.lo, st.hi, s.ints[BarField(b)])) else st
  }

  function RefreshedSwitch(w: SwitchId, on: bool, s: Snapshot): bool {
    if GroupRefreshed(SwitchGroup(w), s) then ReportedSwitch(w, on, s) else on
  }

  /** A switch set to its reported flag, if any. */
  function ReportedSwitch(w: SwitchId, on: bool, s: Snapshot): bool {
    if SwitchFlag(w) in s.flags then s.flags[SwitchFlag(w)] else on
  }

  /** A bar after one part of a pass: the part's own bars are (ranged and) set to their reported fields. */
  function SectionBar(p: Section, b: BarId, st: BarState, s: Snapshot): BarState {
    if BarSection(b) == p then ReportedBar(b, Ranged(b, st, s), s) else st
  }

  function SectionSwitch(p: Section, w: SwitchId, on: bool, s: Snapshot): bool {
    if SwitchSection(w) == p then ReportedSwitch(w, on, s) else on
  }

  /** A bar after one tab's refresh: only a refreshed tab's own bars change. */
  function TabBar(g: Group, b: BarId, st: BarState, s: Snapshot): BarState {
    if GroupRefreshed(g, s) && BarGroup(b) == g then ReportedBar(b, Ranged(b, st, s), s) else st
  }

  function TabSwitch(g: Group, w: SwitchId, on: bool, s: Snapshot): bool {
    if GroupRefreshed(g, s) && SwitchGroup(w) == g then ReportedSwitch(w, on, s) else on
  }

  /** A bar after the refresh of bar b alone. */
  function OneBar(b: BarId, c: BarId, st: BarState, s: Snapshot): BarState {
    if c == b then ReportedBar(c, st, s) else st
  }

  /** A switch after the refresh of switch w alone. */
  function OneSwitch(w: SwitchId, v: SwitchId, on: bool, s: Snapshot): bool {
    if v == w then ReportedSwitch(v, on, s) else on
  }

  /** Refreshing the fan speed and the whoosh, eco and reverse switches is refreshing each of its controls in turn. */
  lemma FanDriveSteps(s: Snapshot)
    ensures forall c: BarId, st: BarState :: SectionBar(FanDriveSection, c, st, s) == OneBar(SpeedBar, c, st, s)
    ensures forall v: SwitchId, on: bool :: SectionSwitch(FanDriveSection, v, on, s) == OneSwitch(ReverseSw, v, OneSwitch(EcoSw, v, OneSwitch(WhooshSw, v, on, s), s), s)
  {
  }

  /** Refreshing auto comfort, its ideal temperature and its speed range is refreshing each in turn. */
  lemma ComfortSteps(s: Snapshot)
    ensures forall c: BarId, st: BarState ::
      SectionBar(ComfortSection, c, st, s) == OneBar(ComfortMaxBar, c, OneBar(ComfortMinBar, c, OneBar(ComfortTempBar, c, st, s), s), s)
    ensures forall v: SwitchId, on: bool :: SectionSwitch(ComfortSection, v, on, s) == OneSwitch(ComfortSw, v, on, s)
  {
  }

  /** Refreshing heat assist, its speed and its direction is refreshing each in turn. */
  lemma HeatAssistSteps(s: Snapshot)
    ensures forall c: BarId, st: BarState :: SectionBar(HeatAssistSection, c, st, s) == OneBar(HeatSpeedBar, c, st, s)
    ensures forall v: SwitchId, on: bool ::
      SectionSwitch(HeatAssistSection, v, on, s) == OneSwitch(HeatReverseSw, v, OneSwitch(HeatAssistSw, v, on, s), s)
  {
  }

  /** Refreshing motion sensing and return to auto is refreshing each of its controls in turn. */
  lemma MotionSteps(s: Snapshot)
    ensures forall c: BarId, st: BarState :: SectionBar(MotionSection, c, st, s) == OneBar(RtaTimeoutBar, c, OneBar(MotionTimeoutBar, c, st, s), s)
    ensures forall v: SwitchId, on: bool :: SectionSwitch(MotionSection, v, on, s) == OneSwitch(RtaSw, v, OneSwitch(MotionSw, v, on, s), s)
  {
  }

  /** Refreshing smart mix is refreshing each of its controls in turn. */
  lemma SmartMixSteps(s: Snapshot)
    ensures forall c: BarId, st: BarState :: SectionBar(SmartMixSection, c, st, s) == OneBar(SmartMixSpeedBar, c, st, s)
    ensures forall v: SwitchId, on: bool :: SectionSwitch(SmartMixSection, v, on, s) == OneSwitch(SmartMixSw, v, on, s)
  {
  }

  /** Refreshing brightness, colour temperature and dim to warm is refreshing each in turn; the colour-temperature bar is ranged first. */
  lemma LightLevelSteps(s: Snapshot)
    ensures forall c: BarId, st: BarState ::
      SectionBar(LightLevelSection, c, st, s) == OneBar(LightCtBar, c, Ranged(c, OneBar(LightBrightBar, c, st, s), s), s)
    ensures forall v: SwitchId, on: bool :: SectionSwitch(LightLevelSection, v, on, s) == OneSwitch(DtwSw, v, on, s)
  {
  }

  /** Refreshing the light's motion timeout and return to auto is refreshing each in turn. */
  lemma LightAutoSteps(s: Snapshot)
    ensures forall c: BarId, st: BarState ::
      SectionBar(LightAutoSection, c, st, s) == OneBar(LightRtaTimeoutBar, c, OneBar(LightMotionTimeoutBar, c, st, s), s)
    ensures forall v: SwitchId, on: bool :: SectionSwitch(LightAutoSection, v, on, s) == OneSwitch(LightRtaSw, v, on, s)
  {
  }

  /** The light tab's two sections, one after the other, refresh exactly the light tab's controls. */
  lemma LightSteps(s: Snapshot)
    requires GroupRefreshed(LightTab, s)
    ensures forall c: BarId, st: BarState ::
      TabBar(LightTab, c, st, s) == SectionBar(LightAutoSection, c, SectionBar(LightLevelSection, c, st, s), s)
    ensures forall v: SwitchId, on: bool ::
      TabSwitch(LightTab, v, on, s) == SectionSwitch(LightAutoSection, v, SectionSwitch(LightLevelSection, v, on, s), s)
  {
  }

  /** Refreshing the nightlight's controls is refreshing each in turn. */
  lemma NightlightSteps(s: Snapshot)
    ensures forall c: BarId, st: BarState ::
      SectionBar(NightlightSection, c, st, s) == OneBar(NlColorBar, c, OneBar(NlBrightBar, c, st, s), s)
    ensures forall v: SwitchId, on: bool :: SectionSwitch(NightlightSection, v, on, s) == OneSwitch(NlEnabledSw, v, on, s)
  {
  }

  /** On a pass that reaches a shown nightlight tab, its one section is the whole tab. */
  lemma NightlightTabSteps(s: Snapshot)
    requires GroupRefreshed(NightlightTab, s)
    ensures forall c: BarId, st: BarState :: TabBar(NightlightTab, c, st, s) == SectionBar(NightlightSection, c, st, s)
    ensures forall v: SwitchId, on: bool :: TabSwitch(NightlightTab, v, on, s) == SectionSwitch(NightlightSection, v, on, s)
  {
  }

  /** Refreshing the settings tab is refreshing each of its controls in turn. */
  lemma SettingsSteps(s: Snapshot)
    requires GroupRefreshed(SettingsTab, s)
    ensures forall v: SwitchId, on: bool :: TabSwitch(SettingsTab, v, on, s) == OneSwitch(IrSw, v, OneSwitch(BeepSw, v, OneSwitch(LedSw, v, on, s), s), s)
  {
  }

  /** The fan tab's sections, one after another, refresh exactly the fan tab's controls. */
  lemma FanSteps(s: Snapshot)
    requires FanPassRuns(s)
    ensures forall c: BarId, st: BarState ::
      TabBar(FanTab, c, st, s) == SectionBar(SmartMixSection, c, SectionBar(MotionSection, c, SectionBar(HeatAssistSection, c,
        SectionBar(ComfortSection, c, SectionBar(FanDriveSection, c, st, s), s), s), s), s)
    ensures forall v: SwitchId, on: bool ::
      TabSwitch(FanTab, v, on, s) == SectionSwitch(SmartMixSection, v, SectionSwitch(MotionSection, v, SectionSwitch(HeatAssistSection, v,
        SectionSwitch(ComfortSection, v, SectionSwitch(FanDriveSection, v, on, s), s), s), s), s)
  {
  }

  /** A whole pass is the tabs' refreshes one after another. */
  lemma RefreshedBarByTabs(b: BarId, st: BarState, s: Snapshot)
    ensures RefreshedBar(b, st, s) == TabBar(NightlightTab, b, TabBar(LightTab, b, TabBar(FanTab, b, st, s), s), s)
  {
  }

  lemma RefreshedSwitchByTabs(w: SwitchId, on: bool, s: Snapshot)
    ensures RefreshedSwitch(w, on, s) ==
      TabSwitch(SettingsTab, w, TabSwitch(NightlightTab, w, TabSwitch(LightTab, w, TabSwitch(FanTab, w, on, s), s), s), s)
  {
  }

  function RefreshedSelector(sel: SelectorId, cur: Option<OffOnAuto>, s: Snapshot): Option<OffOnAuto> {
    var mf := SelectorField(sel);
    if GroupRefreshed(SelectorGroup(sel), s) && mf in s.modes then ModeOf(s.modes[mf]) else cur
  }

  /** The "-active" mark of each preset button: only the reported colour's button is marked. */
  function PresetMarks(color: int): (marks: seq<bool>)
    ensures |marks| == |PRESETS|
    ensures forall i :: 0 <= i < |PRESETS| ==> marks[i] == (PRESETS[i] == color)
  {
    seq(|PRESETS|, i requires 0 <= i < |PRESETS| => PRESETS[i] == color)
  }

  /** The marks for a colour with a preset: that preset's button alone. */
  lemma PresetMarksOne(j: int, color: int)
    requires 0 <= j < |PRESETS| && PRESETS[j] == color
    ensures PresetMarks(color) == seq(|PRESETS|, _ => false)[j := true]
  {
    PresetsDistinct();
  }

  /** The marks for a colour without a preset: no button. */
  lemma PresetMarksNone(color: int)
    requires forall k :: 0 <= k < |PRESETS| ==> PRESETS[k] != color
    ensures PresetMarks(color) == seq(|PRESETS|, _ => false)
  {
  }

  function RefreshedPresets(marks: seq<bool>, s: Snapshot): seq<bool> {
    if GroupRefreshed(NightlightTab, s) && NightlightColor in s.ints then PresetMarks(s.ints[NightlightColor]) else marks
  }

  /** A tab is hidden once a pass that reaches it finds its capability missing; it is never shown again. */
  function RefreshedTabShown(g: Group, shown: bool, s: Snapshot): bool {
    match g
    case LightTab => shown && !(FanPassRuns(s) && !s.hasAnyLight)
    case NightlightTab => shown && !(LightPassReturns(s) && !s.hasNightlight)
    case _ => shown
  }

  /** Without the light capability, no light control changes and a pass that gets there hides the tab. */
  lemma NoLightCapabilityLeavesLightTab(s: Snapshot, b: BarId, st: BarState, w: SwitchId, on: bool, cur: Option<OffOnAuto>)
    requires !s.hasAnyLight
    ensures BarGroup(b) == LightTab ==> RefreshedBar(b, st, s) == st
    ensures SwitchGroup(w) == LightTab ==> RefreshedSwitch(w, on, s) == on
    ensures RefreshedSelector(LightModeSel, cur, s) == cur
    ensures FanPassRuns(s) ==> !RefreshedTabShown(LightTab, true, s)
  {
  }

  /** Without the nightlight capability, no nightlight control changes. */
  lemma NoNightlightCapabilityLeavesNightlightTab(s: Snapshot, b: BarId, st: BarState, marks: seq<bool>, on: bool)
    requires !s.hasNightlight
    ensures BarGroup(b) == NightlightTab ==> RefreshedBar(b, st, s) == st
    ensures RefreshedSwitch(NlEnabledSw, on, s) == on
    ensures RefreshedPresets(marks, s) == marks
    ensures LightPassReturns(s) ==> !RefreshedTabShown(NightlightTab, true, s)
  {
  }

  /** A field the device has not reported leaves its control as it was. */
  lemma UnknownFieldKeepsControl(s: Snapshot, b: BarId, st: BarState, w: SwitchId, on: bool)
    ensures BarField(b) !in s.ints && b != LightCtBar ==> RefreshedBar(b, st, s) == st
    ensures BarField(b) !in s.ints ==> RefreshedBar(b, st, s).value == st.value
    ensures SwitchFlag(w) !in s.flags ==> RefreshedSwitch(w, on, s) == on
  {
  }

  /** A reported field shows in its refreshed control, moved into the control's bounds. */
  lemma ReportedFieldShows(s: Snapshot, b: BarId, st: BarState)
    requires GroupRefreshed(BarGroup(b), s) && BarField(b) in s.ints
    requires st.lo <= st.hi
    requires b == LightCtBar ==> !(LightWarmestColorTemperature in s.ints && LightCoolestColorTemperature in s.ints)
    ensures RefreshedBar(b, st, s) == st.(value := Clamp(st.lo, st.hi, s.ints[BarField(b)]))
    ensures st.lo <= RefreshedBar(b, st, s).value <= st.hi
  {
  }

  /**
   * A new bar shows 0, which lies below the minimum of four bars. A press up moves from
   * 0 by one step and clamps only at the maximum, so on the comfort temperature and
   * colour-temperature bars the first press still leaves the value below the minimum.
   */
  lemma InitialValueBelowRange(nlColorMin: int, nlColorMax: int)
    ensures 0 < BarBounds(ComfortTempBar, nlColorMin, nlColorMax).0
    ensures 0 < BarBounds(SmartMixSpeedBar, nlColorMin, nlColorMax).0
    ensures 0 < BarBounds(LightCtBar, nlColorMin, nlColorMax).0
    ensures 0 < BarBounds(NlBrightBar, nlColorMin, nlColorMax).0
    ensures var bounds := BarBounds(ComfortTempBar, nlColorMin, nlColorMax);
      Pressed(BarState(0, bounds.0, bounds.1), bounds.2, Inc) == 1 < bounds.0
    ensures var bounds := BarBounds(LightCtBar, nlColorMin, nlColorMax);
      Pressed(BarState(0, bounds.0, bounds.1), bounds.2, Inc) == 100 < bounds.0
  {
  }

  /**
   * With both hardware limits reported, the colour-temperature bar takes them as its
   * bounds before its value is set, so the value lands in the device's own range.
   */
  lemma ColorTemperatureInDeviceRange(s: Snapshot, st: BarState)
    requires GroupRefreshed(LightTab, s)
    requires LightWarmestColorTemperature in s.ints && LightCoolestColorTemperature in s.ints
    requires LightColorTemperature in s.ints
    requires s.ints[LightWarmestColorTemperature] <= s.ints[LightCoolestColorTemperature]
    ensures var r := RefreshedBar(LightCtBar, st, s);
      && r.lo == s.ints[LightWarmestColorTemperature] && r.hi == s.ints[LightCoolestColorTemperature]
      && r.lo <= r.value <= r.hi
  {
  }

  /** A second pass over the same snapshot changes nothing more. */
  lemma RefreshIdempotent(s: Snapshot, b: BarId, st: BarState, marks: seq<bool>)
    ensures RefreshedBar(b, RefreshedBar(b, st, s), s) == RefreshedBar(b, st, s)
    ensures RefreshedPresets(RefreshedPresets(marks, s), s) == RefreshedPresets(marks, s)
  {
    if GroupRefreshed(BarGroup(b), s) && BarField(b) in s.ints {
      var r := RefreshedBar(b, st, s);
      ClampIdempotent(r.lo, r.hi, s.ints[BarField(b)]);
    }
  }

  /** A pass raises exactly when the fan mode, or (with a light) the light mode, is unreadable. */
  lemma RefreshRaisesExactly(s: Snapshot)
    ensures RefreshRaises(s) <==>
      (FanMode in s.modes && !(0 <= s.modes[FanMode] <= 2))
      || (s.hasAnyLight && LightMode in s.modes && !(0 <= s.modes[LightMode] <= 2))
  {
  }
}

# Fan dashboard synchronisation core, in Dafny

`tools/fan_tui.py` is a terminal dashboard for one Big Ass Fans appliance. Under its widgets
is a small sequential engine that keeps the controls and the device in step:

- A **refresh pass** (`_refresh_all`) copies every field the device has reported into its
  control. It sets `_updating` for the whole pass and clears it in a `finally` clause.
  The colour-temperature bar takes the device's warmest and coolest temperatures as its
  bounds before its value is set. A tab whose capability the device lacks is hidden and
  left as it was.
- **User handlers** turn one edit into an ordered list of device writes. Each handler drops
  the event while `_updating` is set or when no device is attached. A speed, brightness or
  colour-temperature edit first writes "mode = ON" when the mode is known and not ON.
  Switch ids go through a fixed table. Preset buttons are named `nl-c-<n>`.
- Three **widgets** are modelled. `ValueBar` is an integer with a minimum, a maximum and -/+ buttons.
  `ModeSelector` is an OFF/ON/AUTO radio set. Each of these two can be set quietly,
  without posting `Changed`, and a button press posts `Changed` only when the value moved.
  `Switch` is a two-state toggle whose every change is reported to the app.

The model has these modules:

- `Opt`: the option type.
- `Decimal`: Python's `str` and `int` on integers.
- `Duration`: `_fmt_duration` and a reader of its texts.
- `DeviceModel`: the device, as a snapshot of reported fields plus a log of writes.
- `Controls`: the widgets, as classes.
- `Layout`: the widget ids, bounds and field tables of `compose` and of the handlers.
- `Sync`: the engine's rules, as functions of the snapshot.
- `App`: the `FanApp` class, whose methods follow the source's methods statement by
  statement and are proved against the `Sync` functions.

A field the device has not reported (Python `None`) is a key missing from the snapshot's
maps. A mode field holds the raw integer the device sent, because `OffOnAuto(x)` raises
`ValueError` for any value other than 0, 1 or 2. That gives the refresh pass and the bar
handler their raising paths. The preset handler raises for a different reason: `int()`
of a button id's suffix raises `ValueError` when the suffix is not a number (line 792).
The model reports each of these as a `raised` result.

`_fmt_duration` loses information (leftover seconds are dropped), so it has no inverse.
Its partner in the model is `ReadDuration`, a reader of exactly the texts the formatter
can write: digits without leading zeros, a seconds part only below a minute, an hours
part only when it is at least one, and minutes from 1 to 59 beside hours. Every text the
reader accepts is the formatter's text for its value, and that text is the only one that
reads as that value.

Some behaviours of the code that a reader might not expect, which the model follows:

- `set_value_quiet` only moves the value into `[min, max]`. It does not round to a
  multiple of the step.
- A pass copies every reported field, changed or not.
- A button press posts `Changed` only when the value moved, not on every press.
- The handlers do not check whether a control's tab is hidden.
- A bar starts at 0 whatever its bounds, so four bars start below their minimum. A press
  only clamps at the side it moves towards, so a press up from there can stay below it.

## Model

| member | source | states |
|---|---|---|
| Duration.FmtDurationShape | tools/fan_tui.py:47-54 | the text ends in 's' exactly below a minute; it ends in 'h' exactly from an hour on with no minutes left over; it contains 'h' exactly from an hour on |
| Duration.HoursMinutesShape | tools/fan_tui.py:52-54 | the hours-and-minutes text ends in 'h' exactly when there are hours and no minutes, and contains 'h' exactly when there are hours |
| Duration.FmtDurationReadsBack | tools/fan_tui.py:47-54 | reading the text back gives the seconds themselves below a minute, and otherwise the whole minutes in seconds: the leftover seconds are dropped |
| Duration.ReadDurationWritesBack | tools/fan_tui.py:47-54 | every text the reader accepts is exactly the text the formatter writes for the value it reads as |
| Duration.FmtDurationUnique | tools/fan_tui.py:47-54 | no other text reads as the formatter's text does: "0h 65m", "65m" and "05s" are not its spellings of 3900 and 5 seconds |
| Duration.HoursMinutesReadBack | tools/fan_tui.py:53 | "<h>h <m>m", with at least one hour and 1 to 59 minutes, stands for h hours and m minutes |
| Duration.SingleUnitReadBack | tools/fan_tui.py:53-54 | "<h>h" with at least one hour stands for h hours, and "<m>m" with 1 to 59 minutes for m minutes |
| Decimal.NatText | tools/fan_tui.py:53-54 | str() of a natural number is a non-empty run of decimal digits that starts with '0' only for zero |
| Decimal.IntText | tools/fan_tui.py:49 | str() of an integer is non-empty and starts with '-' exactly for a negative number |
| Decimal.ParseDigits | tools/fan_tui.py:792 | a run of digits reads as a number exactly when it is non-empty and every character is a decimal digit |
| Decimal.NatTextRoundTrip | tools/fan_tui.py:49 | the digits of a natural number read back as that number |
| Decimal.NatTextCanonical | tools/fan_tui.py:49 | str() of a natural number is digits with no leading zero |
| Decimal.CanonicalIsNatText | tools/fan_tui.py:49 | digits with no leading zero are str() of the number they stand for |
| Decimal.ParseInt | tools/fan_tui.py:792 | int() reads a number only from a non-empty text, and a negative number only after a leading minus sign |
| Decimal.IntTextRoundTrip | tools/fan_tui.py:791-792 | int(str(i)) == i for every integer, negative ones included |
| Decimal.IntTextInjective | tools/fan_tui.py:458 | two integers have the same text exactly when they are equal |
| DeviceModel.ModeOf | tools/fan_tui.py:570 | OffOnAuto(i) is a mode exactly for 0, 1 and 2, and it is ON exactly for 1 |
| DeviceModel.ModeIndex | tools/fan_tui.py:188 | a mode's enum value is 0, 1 or 2 and converts back to that mode |
| DeviceModel.ModeOfIndex | tools/fan_tui.py:188 | a converted mode's enum value is the integer it came from |
| DeviceModel.Device.Set | tools/fan_tui.py:740-743 | an attribute assignment appends one write and does not change the reported fields |
| Controls.Clamp | tools/fan_tui.py:127 | max(lo, min(hi, v)) lies in [lo, hi] when lo <= hi, is v when v is already inside, is lo below the range and hi above it |
| Controls.ClampIdempotent | tools/fan_tui.py:124-128 | clamping an already clamped value gives it back, so quietly re-setting the value a bar shows changes nothing |
| Controls.PressOfButtons | tools/fan_tui.py:133-136 | "<bar>-dec" is recognised as the decrement button and "<bar>-inc" as the increment button |
| Controls.PressedInRange | tools/fan_tui.py:133-136 | from an in-range value, a press stays in range and moves at most one step, down for -, up for + |
| Controls.ValueBar.constructor | tools/fan_tui.py:71-90 | a new bar carries the given id, button prefix, bounds and step, shows 0, is not suppressed and has posted nothing |
| Controls.ModeSelector.constructor | tools/fan_tui.py:157-161 | a new selector carries its ids, shows no mode, is not suppressed and has posted nothing |
| Controls.Switch.constructor | tools/fan_tui.py:295-487 | a new switch carries its id and is off |
| Controls.ValueBar.SetValueQuiet | tools/fan_tui.py:124-128 | the value becomes max(min, min(max, v)); the bounds stay; nothing is posted; suppress is false afterwards |
| Controls.ValueBar.OnButton | tools/fan_tui.py:130-142 | the value steps down or up within the bounds for its own buttons and is unchanged for any other id; Changed carrying the new value is posted exactly when the value moved and the bar is not suppressed |
| Controls.ModeSelector.SetValueQuiet | tools/fan_tui.py:174-183 | the selector shows the mode; the radio set's change report arrives while suppressed, so nothing is posted; suppress is false afterwards |
| Controls.ModeSelector.OnRadioChanged | tools/fan_tui.py:185-188 | Changed carrying OffOnAuto(pressed index) is posted exactly when the selector is not suppressed |
| Layout.BarOfWidgetId | tools/fan_tui.py:749-784 | the handler's id tests find a bar exactly when some bar carries that widget id, and then it is that bar |
| Layout.BarButtonPrefix | tools/fan_tui.py:291-452 | a bar's button prefix is its bar_id: the widget id itself for the speed bar, which has no bar_id (line 88), and the widget id without "-bar" for every other bar |
| Layout.BarBounds | tools/fan_tui.py:291-452 | every bar but the nightlight colour bar has a fixed range with min below max; the nightlight colour bar takes the library's colour range; every step is at least 1 |
| Layout.BarWidgetIdRoundTrip | tools/fan_tui.py:749-784 | the handler's chain of id tests picks out each bar by its laid-out id |
| Layout.BarFieldInjective | tools/fan_tui.py:749-784 | no two bars write the same field |
| Layout.SwitchMapMatchesSwitches | tools/fan_tui.py:801-819 | each of the 15 switch ids is in the switch table, mapped to the field that switch shows, and no two switches share a field |
| Layout.PresetButtonIdInjective | tools/fan_tui.py:455-459 | two preset button ids are equal exactly when their colours are |
| Layout.PresetsDistinct | tools/fan_tui.py:41-44 | no colour has two preset buttons |
| Layout.AllBarsListed | tools/fan_tui.py:291-452 | the layout creates every bar |
| Layout.AllSwitchesListed | tools/fan_tui.py:295-487 | the layout creates every switch |
| Sync.ValueEventShape | tools/fan_tui.py:751-784 | a bar edit raises exactly when its gating mode is reported but not an OffOnAuto; otherwise it ends with the bar's own field set to the value and is preceded by exactly one write, the gating mode set to ON, exactly when that mode is known and not ON |
| Sync.SpeedInAutoTurnsFanOn | tools/fan_tui.py:751-754 | speed 5 chosen while the fan is in AUTO writes fan_mode = ON, then speed = 5 |
| Sync.ValueEventUnknownWidget | tools/fan_tui.py:749-784 | an id that names no bar writes nothing |
| Sync.ModeEventWritesMode | tools/fan_tui.py:739-743 | a mode edit writes at most one field, a mode field, with the chosen mode: fan_mode for the fan selector and light_mode for the light selector |
| Sync.SwitchEventWritesShownField | tools/fan_tui.py:799-821 | flipping a switch writes exactly the field that switch shows, with the switch's value |
| Sync.PresetEventRoundTrip | tools/fan_tui.py:790-793 | pressing the button "nl-c-<n>" writes nightlight_color = n and nothing else |
| Sync.NoLightCapabilityLeavesLightTab | tools/fan_tui.py:631-637 | without the light capability no light bar, switch or selector changes, and a pass that gets there hides the tab |
| Sync.NoNightlightCapabilityLeavesNightlightTab | tools/fan_tui.py:676-682 | without the nightlight capability no nightlight control or preset mark changes, and a pass that gets there hides the tab |
| Sync.UnknownFieldKeepsControl | tools/fan_tui.py:567-629 | a control whose field is unreported keeps its value; a bar other than the colour-temperature bar keeps its bounds too |
| Sync.ReportedFieldShows | tools/fan_tui.py:572-694 | on a pass that reaches its tab, a bar whose field is reported shows that field moved into the bar's bounds; for the colour-temperature bar this is the case where the two temperature limits are not both reported, the other case being ColorTemperatureInDeviceRange |
| Sync.InitialValueBelowRange | tools/fan_tui.py:291-452 | a new bar shows 0, below the minimum of the comfort temperature, smart mix speed, colour-temperature and nightlight brightness bars; one press up leaves the comfort temperature bar at 1 and the colour-temperature bar at 100, still below their minimums |
| Sync.ColorTemperatureInDeviceRange | tools/fan_tui.py:647-660 | with both temperature limits reported, the colour-temperature bar takes them as bounds before its value is set, so the value lands inside the device's range |
| Sync.RefreshIdempotent | tools/fan_tui.py:541-554 | a second pass over the same snapshot changes no bar and no preset mark |
| Sync.RefreshRaisesExactly | tools/fan_tui.py:568-641 | a pass raises exactly when the fan mode, or with a light the light mode, is reported but not 0, 1 or 2 |
| Sync.PresetMarks | tools/fan_tui.py:692-700 | exactly the buttons of the reported colour are marked active |
| Sync.FanDriveSteps | tools/fan_tui.py:572-584 | the speed and direction section refreshes the speed bar, then the whoosh, eco and reverse switches, and nothing else |
| Sync.ComfortSteps | tools/fan_tui.py:586-598 | the comfort section refreshes the comfort switch, then the ideal temperature, minimum and maximum bars, and nothing else |
| Sync.HeatAssistSteps | tools/fan_tui.py:599-607 | the heat-assist lines refresh the heat-assist switch, the heat speed bar and the heat reverse switch, and nothing else |
| Sync.MotionSteps | tools/fan_tui.py:609-621 | the motion section refreshes the motion switch and timeout and the return-to-auto switch and timeout, and nothing else |
| Sync.SmartMixSteps | tools/fan_tui.py:623-629 | the smart mix section refreshes its switch and its speed bar, and nothing else |
| Sync.FanSteps | tools/fan_tui.py:567-629 | the fan tab's sections in order refresh exactly the fan tab's controls, once its mode has been read |
| Sync.LightLevelSteps | tools/fan_tui.py:643-664 | brightness, then the colour-temperature re-ranging, then colour temperature, then dim to warm |
| Sync.LightAutoSteps | tools/fan_tui.py:666-674 | the light's motion timeout, return-to-auto switch and return-to-auto timeout |
| Sync.LightSteps | tools/fan_tui.py:631-674 | on a pass that reaches a shown light tab whose mode is readable, its two parts refresh exactly the light tab's controls |
| Sync.NightlightSteps | tools/fan_tui.py:684-694 | the nightlight switch, then its brightness bar, then its colour bar |
| Sync.NightlightTabSteps | tools/fan_tui.py:676-694 | on a pass that reaches a shown nightlight tab, those controls are the whole tab |
| Sync.SettingsSteps | tools/fan_tui.py:722-731 | the settings tab refreshes the LED, beep and IR switches, in that order |
| Sync.RefreshedBarByTabs | tools/fan_tui.py:546-552 | a whole pass leaves each bar as the tabs' refreshes, one after another, leave it |
| Sync.RefreshedSwitchByTabs | tools/fan_tui.py:546-552 | a whole pass leaves each switch as the tabs' refreshes, one after another, leave it |
| App.FanApp.NewBar | tools/fan_tui.py:291-452 | one fresh bar with the laid-out widget id, button prefix, bounds and step, showing 0, not suppressed, nothing posted |
| App.FanApp.NewBars | tools/fan_tui.py:291-452 | one fresh bar per bar id, each distinct, with its laid-out widget id, button prefix, bounds and step, showing 0, not suppressed, nothing posted |
| App.FanApp.NewSwitches | tools/fan_tui.py:295-487 | one fresh switch per switch id, each distinct, with its laid-out id and off |
| App.FanApp.constructor | tools/fan_tui.py:279-487 | every bar, switch and selector exists as a distinct fresh object with its laid-out id, button prefix, bounds and step; none is suppressed; no device, not updating, all tabs shown, no preset marked |
| App.FanApp.AttachDevice | tools/fan_tui.py:521 | the device is attached and nothing else changes |
| App.FanApp.UnmarkAll | tools/fan_tui.py:695-696 | every preset button loses its "-active" mark |
| App.FanApp.FindPreset | tools/fan_tui.py:697-700 | the button whose id names the colour is found exactly when the colour is a preset, and it is that colour's button |
| App.FanApp.MarkPreset | tools/fan_tui.py:695-700 | after unmarking every preset button and then marking the one whose id names the colour, the marks are PresetMarks(colour) |
| App.FanApp.SetSwitch | tools/fan_tui.py:578 | assigning a switch's value reports Changed to the switch handler only when the value differs |
| App.FanApp.RefreshSwitch | tools/fan_tui.py:577-578 | during a pass a switch takes its reported flag, if any; every other control stays and nothing is written |
| App.FanApp.RefreshBar | tools/fan_tui.py:573-574 | during a pass a bar is set quietly to its reported field, if any; every other control stays and nothing is posted |
| App.FanApp.RangeColorTemperature | tools/fan_tui.py:647-658 | the colour-temperature bar takes the warmest and coolest temperatures as its bounds when both are reported |
| App.FanApp.RefreshFanDrive | tools/fan_tui.py:572-584 | the bars and switches end as SectionBar and SectionSwitch of the speed and direction section say |
| App.FanApp.RefreshComfort | tools/fan_tui.py:586-598 | the bars and switches end as the comfort section says |
| App.FanApp.RefreshHeatAssist | tools/fan_tui.py:599-607 | the bars and switches end as the heat-assist section says |
| App.FanApp.RefreshMotion | tools/fan_tui.py:609-621 | the bars and switches end as the motion section says |
| App.FanApp.RefreshSmartMix | tools/fan_tui.py:623-629 | the bars and switches end as the smart mix section says |
| App.FanApp.RefreshFanControls | tools/fan_tui.py:572-629 | the bars and switches end as TabBar and TabSwitch of the fan tab say |
| App.FanApp.RefreshFan | tools/fan_tui.py:567-629 | raises exactly when the fan mode is unreadable; otherwise the fan selector shows the reported mode with nothing posted, and the fan tab's controls are refreshed |
| App.FanApp.RefreshLightLevel | tools/fan_tui.py:643-664 | the bars and switches end as the level and colour part of the light tab says |
| App.FanApp.RefreshLightAuto | tools/fan_tui.py:666-674 | the bars and switches end as the light's motion and return-to-auto part says |
| App.FanApp.RefreshLightControls | tools/fan_tui.py:643-674 | the bars and switches end as TabBar and TabSwitch of the light tab say |
| App.FanApp.RefreshLight | tools/fan_tui.py:631-674 | hides the tab without the light capability; raises exactly when the light mode is unreadable; otherwise the light selector and controls are refreshed |
| App.FanApp.RefreshNightlightControls | tools/fan_tui.py:684-694 | the bars and switches end as the nightlight's controls say |
| App.FanApp.RefreshNightlight | tools/fan_tui.py:676-700 | hides the tab without the capability; otherwise refreshes its controls and marks the reported colour's preset |
| App.FanApp.RefreshSettings | tools/fan_tui.py:722-731 | the switches end as the settings tab says; no bar changes |
| App.FanApp.RefreshEachTab | tools/fan_tui.py:546-552 | the tabs' parts in order, stopping at the first that raises: each bar and switch ends as the tabs' refreshes, applied one after another, leave it; nothing is posted or written, and a widget that was not suppressed is not suppressed afterwards |
| App.FanApp.RefreshTabs | tools/fan_tui.py:546-552 | every bar, switch, selector, preset mark and tab ends as RefreshedBar, RefreshedSwitch, RefreshedSelector, RefreshedPresets and RefreshedTabShown say, with nothing posted and nothing written; a widget that was not suppressed is not suppressed afterwards |
| App.FanApp.RefreshAll | tools/fan_tui.py:541-554 | without a device nothing changes; with one, the pass leaves every control as the Refreshed functions say, posts nothing, writes nothing, raises exactly when RefreshRaises holds, and leaves updating false whether or not it raised; no widget becomes suppressed, so an app in which no widget is suppressed (Quiet) stays so |
| App.FanApp.OnModeChanged | tools/fan_tui.py:735-743 | drops the event while updating or without a device; otherwise appends exactly ModeEventWrites |
| App.FanApp.TurnModeOn | tools/fan_tui.py:752-753 | writes mode = ON exactly when the mode is known, readable and not ON; raises exactly when it is known but unreadable |
| App.FanApp.OnValueChanged | tools/fan_tui.py:745-784 | drops the event while updating or without a device; otherwise raises exactly when ValueEventWrites raises, and else appends exactly its writes, in order |
| App.FanApp.OnNlColorPreset | tools/fan_tui.py:786-793 | drops the event while updating or without a device; otherwise raises exactly when the suffix is not an integer, and else appends exactly PresetEventWrites |
| App.FanApp.OnSwitchChanged | tools/fan_tui.py:795-821 | drops the event while updating or without a device; otherwise appends exactly SwitchEventWrites |
| App.FanApp.PressBarButton | tools/fan_tui.py:130-142 | a press on a bar's button, with the Changed it posts delivered to the bar handler: the bar steps as OnButton says, its suppress flag stays as it was, and the device receives the handler's writes only when Changed was posted |

## Left out

- Rendering and layout are not modelled: `compose` beyond the ids, bounds and steps, CSS,
  `watch_value`, labels, progress bars and the display of tabs beyond a shown/hidden flag.
- Message delivery is synchronous in the model. Textual delivers `RadioSet.Changed` and
  `Switch.Changed` later, after `_suppress` and `_updating` have been cleared, so the real
  echo of a quiet set can reach the handlers. The model states the synchronous behaviour
  the code's flags are written for.
- `_connect_device` (name resolution, connecting, the 10-second availability timeout) is
  I/O and concurrency. `AttachDevice` stands for its assignment of the device at line 521.
- `_on_device_update` is event-loop plumbing. A pass is a direct call to `RefreshAll`.
- `_refresh_header` and `_refresh_sensors` only write status and label text. They are
  left out of `RefreshAll`.
- Floating point: the comfort ideal temperature is an integer in the model, so
  `int(round(ideal))` and `float(event.value)` are the identity.
- `aiobafi6` is not part of this model. `OffOnAuto` is a three-value datatype with a
  conversion that fails outside 0..2. `Device` is a snapshot of reported fields plus a
  write log. The nightlight colour bounds are constructor parameters. The preset colours
  are the literal tuple of line 43.
- Decimal.ParseInt: reads an optional minus sign followed by decimal digits. Python's
  `int` also accepts surrounding whitespace, a plus sign, underscores between digits and
  decimal digits of other scripts (such as Arabic-Indic digits).
  The model treats those ids as having no number, so it raises where Python would not.
- App.FanApp.OnValueChanged: the chain of id comparisons is written as a match on the bar
  that the id names. The two are equivalent by the two-way contract of `Layout.BarOfWidgetId`.
- The split of the fan and light refreshes into sections, of `_refresh_all` into
  `RefreshEachTab` and `RefreshTabs`, and of the preset marking into `UnmarkAll` and
  `FindPreset` is a modelling device for stating each part's effect. The statements and
  their order are the source's.
- `main` and argument parsing are left out.

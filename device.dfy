/**
 * The appliance as the dashboard sees it: the latest reported value of each field
 * (a field absent from a map has not been reported) and the log of writes sent to it.
 */
module DeviceModel {
  import opened Opt

  /** The three-way mode of the fan and of the light; its enum values are 0, 1 and 2. */
  datatype OffOnAuto = Off | On | Auto

  function ModeIndex(m: OffOnAuto): (i: nat)
    ensures i <= 2
    ensures ModeOf(i) == Some(m)
  {
    match m
    case Off => 0
    case On => 1
    case Auto => 2
  }

  /** OffOnAuto(i): a mode for 0, 1 and 2; any other integer is a ValueError. */
  function ModeOf(i: int): (r: Option<OffOnAuto>)
    ensures r.Some? <==> 0 <= i <= 2
    ensures i == 1 <==> r == Some(On)
  {
    if i == 0 then Some(Off) else if i == 1 then Some(On) else if i == 2 then Some(Auto) else None
  }

  /** The enum value of a converted mode is the integer it came from. */
  lemma ModeOfIndex(i: int)
    requires 0 <= i <= 2
    ensures ModeIndex(ModeOf(i).value) == i
  {
  }

  datatype ModeField = FanMode | LightMode

  datatype IntField =
    | Speed
    | ComfortIdealTemperature
    | ComfortMinSpeed
    | ComfortMaxSpeed
    | ComfortHeatAssistSpeed
    | MotionSenseTimeout
    | ReturnToAutoTimeout
    | SmartMixSpeed
    | LightBrightnessPercent
    | LightColorTemperature
    | LightWarmestColorTemperature
    | LightCoolestColorTemperature
    | LightAutoMotionTimeout
    | LightReturnToAutoTimeout
    | NightlightBrightnessPercent
    | NightlightColor

  datatype BoolField =
    | WhooshEnable
    | EcoEnable
    | ReverseEnable
    | AutoComfortEnable
    | ComfortHeatAssistEnable
    | ComfortHeatAssistReverseEnable
    | MotionSenseEnable
    | ReturnToAutoEnable
    | SmartMixEnable
    | LightDimToWarmEnable
    | LightReturnToAutoEnable
    | NightlightEnabled
    | LedIndicatorsEnable
    | FanBeepEnable
    | LegacyIrRemoteEnable

  /**
   * What the device has reported so far. Mode fields hold the raw integer the device
   * sent, which the dashboard converts with OffOnAuto(...). The capability flags are
   * always known.
   */
  datatype Snapshot = Snapshot(
    modes: map<ModeField, int>,
    ints: map<IntField, int>,
    flags: map<BoolField, bool>,
    hasAnyLight: bool,
    hasNightlight: bool)

  /** One attribute assignment on the device object, i.e. one command sent to the appliance. */
  datatype Write =
    | SetMode(modeField: ModeField, mode: OffOnAuto)
    | SetInt(intField: IntField, value: int)
    | SetFlag(boolField: BoolField, flag: bool)

  class Device {
    var snapshot: Snapshot
    var writes: seq<Write>

    constructor (s: Snapshot)
      ensures snapshot == s && writes == []
    {
      snapshot := s;
      writes := [];
    }

    /**
     * Assigning an attribute sends a command; the reported value changes only when
     * the appliance reports back, so the snapshot is left as it is.
     */
    method Set(w: Write)
      modifies this
      ensures writes == old(writes) + [w]
      ensures snapshot == old(snapshot)
    {
      writes := writes + [w];
    }
  }
}

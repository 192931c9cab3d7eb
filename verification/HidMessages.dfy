/** What passes between the core and the handheld controller. */
module HidMessages {
  type byte = x: int | 0 <= x < 256
  type i8 = x: int | -128 <= x < 128
  type i16 = x: int | -0x8000 <= x < 0x8000

  datatype HidInputEvent =
    | ButtonClick(encoderId: byte)
    | ButtonDoubleClick(encoderId: byte)
    | ButtonHoldStart(encoderId: byte)
    | ButtonHoldEnd(encoderId: byte)
    | MenuSelect(displayId: byte, itemId: byte)
    | MenuCancel(displayId: byte)

  datatype InputReport = InputReport(activeScreenId: byte, encoderDeltas: seq<i8>, events: seq<HidInputEvent>)

  // A C string: its bytes without the terminating zero.
  type cstring = s: seq<byte> | forall i | 0 <= i < |s| :: s[i] != 0

  datatype HardwareControl =
    | LedRingValue(ringId: byte, value: byte)
    | Reset
    | SleepLevel(canDeepSleep: bool)

  datatype VariableEntry =
    | FixedPoint(index: byte, decimals: byte, value: i16)
    | ShortString(index: byte, text: cstring)
    | Hardware(control: HardwareControl)

  datatype EncoderLabel = EncoderLabel(primary: cstring, secondary: cstring)

  datatype MenuItem = MenuItem(itemId: byte, enabled: bool, text: cstring)

  datatype DisplayContent =
    | TextLines(topMargin: byte, lines: seq<cstring>)
    | Menu(topMargin: byte, title: cstring, items: seq<MenuItem>)

  type u16 = x: int | 0 <= x < 0x1_0000

  // One display: its content, animation type, duration and delay.
  datatype Area = Area(main: DisplayContent, animation: byte, duration: u16, delay: u16)

  datatype ScreenSpec = ScreenSpec(screenId: byte, encoderLabels: seq<EncoderLabel>, left: Area, right: Area)

  datatype OutputReport = Screen(spec: ScreenSpec) | VariableUpdate(entries: seq<VariableEntry>)
}

/** Input reports from the handheld, after section 2.4.4 of the HID protocol document. */
module HidInput {
  import opened Base
  import opened HidMessages
  import opened HidWire

  datatype ReadResult = Nothing | Malformed | Received(report: InputReport)

  function SignedByte(b: byte): i8 {
    if b < 128 then b else b - 256
  }

  function UnsignedByte(x: i8): byte {
    if x < 0 then x + 256 else x
  }

  function FromRaw(eventType: byte, data: byte): Option<HidInputEvent> {
    match eventType
    case 0 => Some(ButtonClick(data))
    case 1 => Some(ButtonDoubleClick(data))
    case 2 => Some(ButtonHoldStart(data))
    case 3 => Some(ButtonHoldEnd(data))
    case 4 => Some(MenuSelect(data / 64, data % 64))
    case 5 => Some(MenuCancel(data / 64))
    case _ => None
  }

  // The known events among the first n two-byte events.
  function EventsIn(bytes: seq<byte>, n: nat): seq<HidInputEvent>
    requires 2 * n <= |bytes|
  {
    if n == 0 then []
    else
      var event := FromRaw(bytes[2 * (n - 1)], bytes[2 * (n - 1) + 1]);
      EventsIn(bytes, n - 1) + (if event.Some? then [event.value] else [])
  }

  function DeltasIn(bytes: seq<byte>): (r: seq<i8>)
    requires |bytes| == 4
    ensures |r| == 4
  {
    [SignedByte(bytes[0]), SignedByte(bytes[1]), SignedByte(bytes[2]), SignedByte(bytes[3])]
  }

  function Parsed(data: seq<byte>): ReadResult {
    if data == [] || data[0] != 1 then Nothing
    else if |data| < 7 || 2 * data[6] > |data| - 7 then Malformed
    else Received(InputReport(data[1], DeltasIn(data[2..6]), EventsIn(data[7..], data[6])))
  }

  /** `data` is what the device delivered, at most a whole report. */
  method ReadInputReport(data: seq<byte>) returns (result: ReadResult)
    requires |data| <= REPORT_LEN
    ensures result == Parsed(data)
  {
    var buf := data + Zeros(REPORT_LEN - |data|);
    if |data| == 0 {
      return Nothing;
    }
    if buf[0] != 1 {
      return Nothing;
    }
    if |data| < 7 {
      return Malformed;
    }
    var count := buf[6];
    if 2 * count > |data| - 7 {
      return Malformed;
    }
    var events: seq<HidInputEvent> := [];
    for i := 0 to count
      invariant events == EventsIn(data[7..], i)
    {
      var event := FromRaw(buf[7 + i * 2], buf[7 + i * 2 + 1]);
      if event.Some? {
        events := events + [event.value];
      }
    }
    assert buf[2..6] == data[2..6];
    return Received(InputReport(buf[1], DeltasIn(buf[2..6]), events));
  }

  // ----- what the firmware sends -----

  // The protocol's ranges for the data of an event.
  predicate InProtocol(event: HidInputEvent) {
    match event
    case MenuSelect(display, item) => display < 4 && item < 64
    case MenuCancel(display) => display < 4
    case _ => true
  }

  function RawEvent(event: HidInputEvent): (r: seq<byte>)
    requires InProtocol(event)
    ensures |r| == 2
  {
    match event
    case ButtonClick(encoder) => [0, encoder]
    case ButtonDoubleClick(encoder) => [1, encoder]
    case ButtonHoldStart(encoder) => [2, encoder]
    case ButtonHoldEnd(encoder) => [3, encoder]
    case MenuSelect(display, item) => [4, display * 64 + item]
    case MenuCancel(display) => [5, display * 64]
  }

  function RawEvents(events: seq<HidInputEvent>): (r: seq<byte>)
    requires forall i | 0 <= i < |events| :: InProtocol(events[i])
    ensures |r| == 2 * |events|
  {
    if events == [] then []
    else RawEvents(events[..|events| - 1]) + RawEvent(events[|events| - 1])
  }

  lemma {:induction false} EventsRoundTrip(events: seq<HidInputEvent>, padding: seq<byte>)
    requires forall i | 0 <= i < |events| :: InProtocol(events[i])
    ensures EventsIn(RawEvents(events) + padding, |events|) == events
  {
    hide FromRaw, RawEvent, InProtocol;
    if events != [] {
      var last, others := events[|events| - 1], events[..|events| - 1];
      EventsRoundTrip(others, RawEvent(last) + padding);
      assert RawEvents(events) + padding == RawEvents(others) + (RawEvent(last) + padding);
      assert InProtocol(last);
      EventRoundTrip(last);
      assert events == others + [last];
    }
  }

  lemma EventRoundTrip(event: HidInputEvent)
    requires InProtocol(event)
    ensures FromRaw(RawEvent(event)[0], RawEvent(event)[1]) == Some(event)
  {
  }

  /** A report as the firmware encodes it, with any padding, is read back as it was meant. */
  lemma InputRoundTrip(report: InputReport, padding: seq<byte>)
    requires |report.encoderDeltas| == 4 && |report.events| <= 28
    requires forall i | 0 <= i < |report.events| :: InProtocol(report.events[i])
    ensures
      var d := report.encoderDeltas;
      Parsed([1, report.activeScreenId, UnsignedByte(d[0]), UnsignedByte(d[1]), UnsignedByte(d[2]), UnsignedByte(d[3]),
              |report.events|] + RawEvents(report.events) + padding) == Received(report)
  {
    hide EventsIn, RawEvents;
    var d := report.encoderDeltas;
    var head: seq<byte> := [1, report.activeScreenId, UnsignedByte(d[0]), UnsignedByte(d[1]), UnsignedByte(d[2]),
                            UnsignedByte(d[3]), |report.events|];
    var data := head + RawEvents(report.events) + padding;
    assert data[7..] == RawEvents(report.events) + padding;
    EventsRoundTrip(report.events, padding);
    assert DeltasIn(data[2..6]) == d;
  }
}

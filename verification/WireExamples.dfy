/**
  The wire formats, byte by byte: the layout of each kind of entry, command and flag, and the examples of the
  protocol documents and of the repository's own tests.
 */
module WireExamples {
  import opened Base
  import opened HidMessages
  import opened Controller
  import W = HidWire
  import S = HidScreen
  import I = HidInput
  import L = LinUdp
  import E = EndToEnd

  // ----- variable updates -----

  /** The tag of an entry has its type in bits 6:5 and its index in bits 4:0; the payload follows. */
  lemma EntryLayout(index: byte, decimals: byte, value: i16, text: cstring, ring: byte, level: byte, can: bool)
    requires index <= 31 && ring < 4
    ensures
      var bytes := W.Encode(FixedPoint(index, decimals, value));
      |bytes| == 4 && bytes[0] == 0 * 32 + index && bytes[1] == decimals
      && (bytes[2] + 256 * bytes[3] - value) % 0x1_0000 == 0
    ensures W.Encode(ShortString(index, text)) == [1 * 32 + index] + text + [0]
    ensures W.Encode(Hardware(LedRingValue(ring, level))) == [3 * 32 + ring, level]
    ensures W.Encode(Hardware(Reset)) == [3 * 32 + 4, 1]
    ensures W.Encode(Hardware(SleepLevel(can))) == [3 * 32 + 5, if can then 1 else 0]
  {
    assert value == 256 * (value / 256) + value % 256;
    W.HighByte(value / 256);
  }

  /** The steady-state example of the protocol document: 02 02 06 01 D4 30 63 80. */
  lemma SteadyStateReport()
    ensures
      var group := [FixedPoint(6, 1, 12_500), Hardware(LedRingValue(3, 0x80))];
      && W.Fits(group)
      && W.Render(group)[..8] == [0x02, 0x02, 0x06, 0x01, 0xD4, 0x30, 0x63, 0x80]
      && forall i | 8 <= i < 64 :: W.Render(group)[i] == 0
  {
    var led := [Hardware(LedRingValue(3, 0x80))];
    var group := [FixedPoint(6, 1, 12_500), Hardware(LedRingValue(3, 0x80))];
    assert group[1..] == led && led[1..] == [];
    assert W.EncodeAll(led) == [0x63, 0x80];
    assert W.EncodeAll(group) == [0x06, 0x01, 0xD4, 0x30] + W.EncodeAll(led);
  }

  const HELLO: cstring := [0x48, 0x65, 0x6C, 0x6C, 0x6F]

  /** A report with one entry of every kind. */
  lemma MixedReport()
    ensures
      var group := [FixedPoint(5, 2, 1_234), ShortString(12, HELLO), Hardware(SleepLevel(true)),
                    Hardware(LedRingValue(2, 200))];
      && W.Fits(group)
      && W.Render(group)
         == [0x02, 0x04] + ([0x05, 0x02, 0xD2, 0x04] + ([0x2C] + HELLO + [0x00] + ([0x65, 0x01] + [0x62, 0xC8])))
            + W.Zeros(47)
  {
    var fixed, text := FixedPoint(5, 2, 1_234), ShortString(12, HELLO);
    var sleep, ring := Hardware(SleepLevel(true)), Hardware(LedRingValue(2, 200));
    Prepend(ring, []);
    Prepend(sleep, [ring]);
    Prepend(text, [sleep, ring]);
    Prepend(fixed, [text, sleep, ring]);
    EntryLayout(5, 2, 1_234, HELLO, 2, 200, true);
    assert W.Encode(fixed) == [0x05, 0x02, 0xD2, 0x04];
    hide W.Encode, W.EncodeAll;
    assert W.EncodeAll([ring]) == [0x62, 0xC8];
  }

  lemma Prepend(entry: VariableEntry, rest: seq<VariableEntry>)
    requires W.Encodable(entry) && W.AllEncodable(rest)
    ensures W.AllEncodable([entry] + rest) && W.SizeOf([entry] + rest) == W.EncodedSize(entry) + W.SizeOf(rest)
    ensures W.EncodeAll([entry] + rest) == W.Encode(entry) + W.EncodeAll(rest)
  {
    assert ([entry] + rest)[1..] == rest;
  }

  // ----- screens -----

  /** The layout of a display's area: type, margin, count and strings or items, then the animation. */
  lemma AreaLayout(
    topMargin: byte, line: cstring, title: cstring, item: MenuItem, animation: byte, duration: u16, delay: u16)
    requires item.itemId <= 63
    ensures S.EncodeArea(Area(TextLines(topMargin, [line]), animation, duration, delay))
         == [0, topMargin, 1] + line + [0, animation, duration % 256, duration / 256, delay % 256, delay / 256]
    ensures S.EncodeArea(Area(Menu(topMargin, title, [item]), animation, duration, delay))
         == [1, topMargin] + title + [0, 1, item.itemId, if item.enabled then 1 else 0] + item.text
            + [0, animation, duration % 256, duration / 256, delay % 256, delay / 256]
  {
    assert [line][1..] == [] && [item][1..] == [];
    assert S.EncodeStrings([line]) == line + [0];
    assert S.EncodeItems([item]) == [item.itemId, if item.enabled then 1 else 0] + item.text + [0];
  }

  function LabelBytes(one: EncoderLabel): seq<byte> {
    one.primary + [0] + one.secondary + [0]
  }

  lemma LabelsLayout(a: EncoderLabel, b: EncoderLabel, c: EncoderLabel, d: EncoderLabel)
    ensures S.EncodeStrings(S.LabelStrings([a, b, c, d]))
         == LabelBytes(a) + (LabelBytes(b) + (LabelBytes(c) + LabelBytes(d)))
  {
    var labels := [a, b, c, d];
    assert labels[0..] == labels && labels[4..] == [];
    assert S.EncodeStrings(S.LabelStrings(labels[4..])) == [];
    S.UnfoldLabels(labels, 0);
    S.UnfoldLabels(labels, 1);
    S.UnfoldLabels(labels, 2);
    S.UnfoldLabels(labels, 3);
    hide S.EncodeStrings, S.LabelStrings;
  }

  /** The labels come first, primary before secondary, in encoder order; then left before right. */
  lemma ScreenLayout(a: EncoderLabel, b: EncoderLabel, c: EncoderLabel, d: EncoderLabel, left: Area, right: Area)
    requires S.EncodableMain(left.main) && S.EncodableMain(right.main)
    ensures S.Payload(ScreenSpec(1, [a, b, c, d], left, right))
         == LabelBytes(a) + (LabelBytes(b) + (LabelBytes(c) + LabelBytes(d)))
            + (S.EncodeArea(left) + S.EncodeArea(right))
  {
    hide S.EncodeArea, S.EncodeStrings, S.LabelStrings, LabelBytes, S.EncodableMain;
    LabelsLayout(a, b, c, d);
  }

  /** A fragment begins with the report number, the screen, how many fragments there are and which it is. */
  lemma FragmentLayout(screenId: byte, payload: seq<byte>, i: nat, k: nat)
    requires i < S.FragmentCount(|payload|) <= 255 && k < 60
    ensures S.Fragment(screenId, payload, i)[..4] == [1, screenId, (|payload| + 59) / 60, i]
    ensures S.Fragment(screenId, payload, i)[4 + k] == if 60 * i + k < |payload| then payload[60 * i + k] else 0
  {
  }

  // ----- input reports -----

  /** Two menu events of screen 42, and a click with movements of screen 7. */
  lemma InputExamples()
    ensures I.Parsed([0x01, 42, 0, 0, 0, 0, 2, 0x04, 0x45, 0x05, 0x00])
         == I.Received(InputReport(42, [0, 0, 0, 0], [MenuSelect(1, 5), MenuCancel(0)]))
    ensures I.Parsed([0x01, 7, 1, 0xFE, 3, 0xFC, 1, 0x00, 0x00])
         == I.Received(InputReport(7, [1, -2, 3, -4], [ButtonClick(0)]))
    ensures I.Parsed([0x01, 0, 0, 0, 0, 0, 100]) == I.Malformed
    ensures I.Parsed([0x02, 0, 0, 0, 0, 0, 0]) == I.Nothing
    ensures I.Parsed([0x01, 7, 1, 0xFE, 3, 0xFC]) == I.Malformed
  {
    var menu: seq<byte> := [0x01, 42, 0, 0, 0, 0, 2, 0x04, 0x45, 0x05, 0x00];
    assert menu[2..6] == [0, 0, 0, 0] && menu[7..] == [0x04, 0x45, 0x05, 0x00];
    EventsOf(menu[7..]);
    var click: seq<byte> := [0x01, 7, 1, 0xFE, 3, 0xFC, 1, 0x00, 0x00];
    assert click[2..6] == [1, 0xFE, 3, 0xFC] && click[7..] == [0x00, 0x00];
    assert I.EventsIn(click[7..], 0) == [];
  }

  lemma EventsOf(bytes: seq<byte>)
    requires bytes == [0x04, 0x45, 0x05, 0x00]
    ensures I.EventsIn(bytes, 2) == [MenuSelect(1, 5), MenuCancel(0)]
  {
    assert I.EventsIn(bytes, 0) == [];
    assert I.EventsIn(bytes, 1) == [MenuSelect(1, 5)];
  }

  /** The event types by number; types beyond 5 are ignored. */
  lemma EventTypes(kind: byte, data: byte)
    ensures
      I.FromRaw(kind, data)
      == if kind == 0 then Some(ButtonClick(data)) else if kind == 1 then Some(ButtonDoubleClick(data))
         else if kind == 2 then Some(ButtonHoldStart(data)) else if kind == 3 then Some(ButtonHoldEnd(data))
         else if kind == 4 then Some(MenuSelect(data / 64, data % 64)) else if kind == 5 then Some(MenuCancel(data / 64))
         else None
  {
  }

  // ----- LinUDP -----

  /** The example of the LinUDP documentation: go to 10 mm at 1 m/s with 10 m/s^2 both ways. */
  lemma GoToExample()
    ensures L.EncodeMotion(L.CountedCommand(0, L.VaiGoToPos(100_000, 1_000_000, 1_000_000, 1_000_000)))
         == [0x00, 0x01] + ([0xA0, 0x86, 0x01, 0x00] + [0x40, 0x42, 0x0F, 0x00] + [0x40, 0x42, 0x0F, 0x00]
            + [0x40, 0x42, 0x0F, 0x00] + L.Padding(14))
  {
    ExampleNumbers();
    HeaderBytes(0, L.VaiGoToPos(100_000, 1_000_000, 1_000_000, 1_000_000), 0x010);
    MotionParameters(0, 100_000, 1_000_000, 1_000_000, 1_000_000);
    var bytes := L.EncodeMotion(L.CountedCommand(0, L.VaiGoToPos(100_000, 1_000_000, 1_000_000, 1_000_000)));
    hide L.LeI32, L.Le, L.EncodeMotion, L.Padding;
    assert bytes == bytes[..2] + bytes[2..];
  }

  lemma ExampleNumbers()
    ensures L.LeI32(100_000) == [0xA0, 0x86, 0x01, 0x00] && L.LeI32(1_000_000) == [0x40, 0x42, 0x0F, 0x00]
  {
    LittleEndian(100_000);
    LittleEndian(1_000_000);
    hide L.LeI32;
  }

  lemma TwoBytes(value: nat)
    requires value < 0x1_0000
    ensures L.Le(value, 2) == [value % 256, value / 256]
  {
    assert L.Le(value / 256, 1) == [value / 256 % 256] + L.Le(value / 256 / 256, 0);
  }

  /** Numbers are little-endian, in two's complement. */
  lemma LittleEndian(x: L.i32)
    ensures
      var u := if x < 0 then x + 0x1_0000_0000 else x;
      L.LeI32(x) == [u % 256, u / 256 % 256, u / 256 / 256 % 256, u / 256 / 256 / 256 % 256]
  {
    L.Sizes();
    var u: nat := if x < 0 then x + 0x1_0000_0000 else x;
    assert L.Le(u / 256 / 256 / 256 / 256, 0) == [];
    assert L.Le(u / 256 / 256 / 256, 1) == [u / 256 / 256 / 256 % 256];
    assert L.Le(u / 256 / 256, 2) == [u / 256 / 256 % 256] + L.Le(u / 256 / 256 / 256, 1);
    assert L.Le(u / 256, 3) == [u / 256 % 256] + L.Le(u / 256 / 256, 2);
  }

  // The block of the command begins with these two bytes, the number added to the first.
  predicate Begins(count: byte, command: L.Command, low: byte, high: byte)
    requires count <= 15 && low <= 0xF0
  {
    L.EncodeMotion(L.CountedCommand(count, command))[..2] == [low + count, high]
  }

  /** A motion block begins with the command's identifier above the four bits of its number. */
  lemma MotionHeader(count: byte, p: L.i32, v: L.i32, a: L.i32, d: L.i32, j: L.i32)
    requires count <= 15
    ensures
      && Begins(count, L.NoOperation, 0x00, 0x00)
      && Begins(count, L.VaiGoToPos(p, v, a, d), 0x00, 0x01)
      && Begins(count, L.VaiIncrementDemPos(p, v, a, d), 0x10, 0x01)
      && Begins(count, L.VaiGoToPosFromActPosAndActVel(p, v, a, d), 0x30, 0x01)
      && Begins(count, L.VaiStop(d), 0x70, 0x01)
      && Begins(count, L.PStreamWithDriveGeneratedTimeStamp(p), 0x00, 0x03)
      && Begins(count, L.PvStreamWithDriveGeneratedTimeStamp(p, v), 0x10, 0x03)
      && Begins(count, L.PStreamWithDriveGeneratedTimeStampAndConfiguredPeriodTime(p), 0x20, 0x03)
      && Begins(count, L.PvStreamWithDriveGeneratedTimeStampAndConfiguredPeriodTime(p, v), 0x30, 0x03)
      && Begins(count, L.PvaStreamWithDriveGeneratedTimeStamp(p, v, a), 0x40, 0x03)
      && Begins(count, L.PvaStreamWithDriveGeneratedTimeStampAndConfiguredPeriodTime(p, v, a), 0x50, 0x03)
      && Begins(count, L.PvaStreamWithControllerGeneratedTimeStamp(p, v, a), 0xA0, 0x03)
      && Begins(count, L.StopStream, 0xF0, 0x03)
      && Begins(count, L.VajiGoToPos(p, v, a, d, j), 0x00, 0x3A)
  {
    hide Begins;
    HeaderBytes(count, L.NoOperation, 0x000);
    HeaderBytes(count, L.VaiGoToPos(p, v, a, d), 0x010);
    HeaderBytes(count, L.VaiIncrementDemPos(p, v, a, d), 0x011);
    HeaderBytes(count, L.VaiGoToPosFromActPosAndActVel(p, v, a, d), 0x013);
    HeaderBytes(count, L.VaiStop(d), 0x017);
    HeaderBytes(count, L.PStreamWithDriveGeneratedTimeStamp(p), 0x030);
    HeaderBytes(count, L.PvStreamWithDriveGeneratedTimeStamp(p, v), 0x031);
    HeaderBytes(count, L.PStreamWithDriveGeneratedTimeStampAndConfiguredPeriodTime(p), 0x032);
    HeaderBytes(count, L.PvStreamWithDriveGeneratedTimeStampAndConfiguredPeriodTime(p, v), 0x033);
    HeaderBytes(count, L.PvaStreamWithDriveGeneratedTimeStamp(p, v, a), 0x034);
    HeaderBytes(count, L.PvaStreamWithDriveGeneratedTimeStampAndConfiguredPeriodTime(p, v, a), 0x035);
    HeaderBytes(count, L.PvaStreamWithControllerGeneratedTimeStamp(p, v, a), 0x03A);
    HeaderBytes(count, L.StopStream, 0x03F);
    HeaderBytes(count, L.VajiGoToPos(p, v, a, d, j), 0x3A0);
  }

  lemma HeaderBytes(count: byte, command: L.Command, id: nat)
    requires count <= 15 && L.Id(command) == id
    ensures Begins(count, command, id % 16 * 16, id / 16)
  {
    hide L.EncodeWords, L.Le, L.Parameters, L.Id;
    TwoBytes(16 * id + count);
    assert (16 * id + count) % 256 == id % 16 * 16 + count && (16 * id + count) / 256 == id / 16;
  }

  /** The control word: switch on in bit 0, acknowledge in bit 7, home in bit 11. */
  lemma ControlWord(flags: set<ControlFlag>)
    ensures E.FlagBits(flags) / 0x0001 % 2 == 1 <==> SwitchOn in flags
    ensures E.FlagBits(flags) / 0x0080 % 2 == 1 <==> ErrorAcknowledge in flags
    ensures E.FlagBits(flags) / 0x0800 % 2 == 1 <==> Home in flags
    ensures E.FlagBits(flags) <= 0x0881
  {
  }

  /** A request begins with the bits of its parts and of the wanted fields, then control word and motion. */
  lemma RequestLayout(control: u16, motion: L.CountedCommand, wanted: L.u32)
    ensures L.EncodeRequest(L.Request(Some(control), Some(motion), None, wanted))
         == [3, 0, 0, 0]
            + [wanted % 256, wanted / 256 % 256, wanted / 256 / 256 % 256, wanted / 256 / 256 / 256 % 256]
            + [control % 256, control / 256] + L.EncodeMotion(motion)
    ensures L.EncodeRequest(L.Request(Some(control), None, None, wanted))[..4] == [1, 0, 0, 0]
    ensures L.EncodeRequest(L.Request(None, None, Some(L.Realtime(1, 2, 3, 4)), wanted))[..4] == [4, 0, 0, 0]
  {
    hide L.EncodeMotion;
    FourBytes(3);
    FourBytes(1);
    FourBytes(4);
    FourBytes(wanted);
    TwoBytes(control);
  }

  lemma FourBytes(u: nat)
    ensures L.Le(u, 4) == [u % 256, u / 256 % 256, u / 256 / 256 % 256, u / 256 / 256 / 256 % 256]
  {
    assert L.Le(u / 256 / 256 / 256 / 256, 0) == [];
    assert L.Le(u / 256 / 256 / 256, 1) == [u / 256 / 256 / 256 % 256];
    assert L.Le(u / 256 / 256, 2) == [u / 256 / 256 % 256] + L.Le(u / 256 / 256 / 256, 1);
    assert L.Le(u / 256, 3) == [u / 256 % 256] + L.Le(u / 256 / 256, 2);
  }

  /** Its parameters follow as words: target, velocity, acceleration, deceleration; for a stop the deceleration. */
  lemma MotionParameters(count: byte, p: L.i32, v: L.i32, a: L.i32, d: L.i32)
    ensures
      L.EncodeMotion(L.CountedCommand(count, L.VaiGoToPos(p, v, a, d)))[2..]
      == L.LeI32(p) + L.LeI32(v) + L.LeI32(a) + L.LeI32(d) + L.Padding(14)
    ensures L.EncodeMotion(L.CountedCommand(count, L.VaiStop(d)))[2..] == L.LeI32(d) + L.Padding(26)
  {
    hide L.LeI32, L.Le;
    var w4: seq<L.i32> := [p, v, a, d];
    assert w4[1..] == [v, a, d] && w4[1..][1..] == [a, d] && w4[1..][1..][1..] == [d];
    var w1: seq<L.i32> := [d];
    assert w1[1..] == [];
    assert L.EncodeWords(w1) == L.LeI32(d);
    assert L.EncodeWords([a, d]) == L.LeI32(a) + L.EncodeWords([a, d][1..]);
    assert L.EncodeWords([v, a, d]) == L.LeI32(v) + L.EncodeWords([v, a, d][1..]);
    assert L.EncodeWords(w4) == L.LeI32(p) + (L.LeI32(v) + (L.LeI32(a) + L.LeI32(d)));
  }

  function Word(bytes: seq<byte>, at: nat): nat
    requires at + 2 <= |bytes|
  {
    bytes[at] as nat + 0x100 * bytes[at + 1] as nat
  }

  function Long(bytes: seq<byte>, at: nat): nat
    requires at + 4 <= |bytes|
  {
    Word(bytes, at) + 0x1_0000 * Word(bytes, at + 2)
  }

  function Complement(u: int, size: int): int {
    if 2 * u < size then u else u - size
  }

  lemma FromTwo(bytes: seq<byte>, at: nat)
    requires at + 2 <= |bytes|
    ensures L.FromLe(bytes[at..at + 2]) == Word(bytes, at)
  {
    var b := bytes[at..at + 2];
    assert b[1..][1..] == [];
    assert L.FromLe(b[1..]) == b[1] + 256 * L.FromLe(b[1..][1..]);
  }

  lemma FromFour(bytes: seq<byte>, at: nat)
    requires at + 4 <= |bytes|
    ensures L.FromLe(bytes[at..at + 4]) == Long(bytes, at)
  {
    var b := bytes[at..at + 4];
    assert b[1..][1..] == bytes[at + 2..at + 2 + 2];
    FromTwo(bytes, at + 2);
    assert L.FromLe(b[1..]) == b[1] + 256 * L.FromLe(b[1..][1..]);
  }

  // Where the fields are when all are announced but the realtime configuration, which was not requested.
  lemma AllOffsets(request: nat, response: nat)
    requires response == 0x1FF && !L.Bit(request, 2)
    ensures forall i | 0 <= i < 8 :: L.Present(request, response, i)
    ensures !L.Present(request, response, 8)
    ensures L.Offset(request, response, 0) == 8 && L.Offset(request, response, 1) == 10
    ensures L.Offset(request, response, 2) == 12 && L.Offset(request, response, 3) == 16
    ensures L.Offset(request, response, 4) == 20 && L.Offset(request, response, 5) == 22
    ensures L.Offset(request, response, 6) == 24 && L.Offset(request, response, 7) == 26
    ensures L.Offset(request, response, 8) == 42 && L.Offset(request, response, 9) == 42
  {
    assert L.Bit(0x1FF, 0) && L.Bit(0x1FF, 1) && L.Bit(0x1FF, 2) && L.Bit(0x1FF, 3);
    assert L.Bit(0x1FF, 4) && L.Bit(0x1FF, 5) && L.Bit(0x1FF, 6) && L.Bit(0x1FF, 7);
    hide L.Bit;
    assert L.Offset(request, response, 0) == 8;
    assert L.Offset(request, response, 1) == 10;
    assert L.Offset(request, response, 2) == 12;
    assert L.Offset(request, response, 3) == 16;
    assert L.Offset(request, response, 4) == 20;
    assert L.Offset(request, response, 5) == 22;
    assert L.Offset(request, response, 6) == 24;
    assert L.Offset(request, response, 7) == 26;
    assert L.Offset(request, response, 8) == 42;
  }

  // The bytes of every field of a full response.
  lemma FullFields(bytes: seq<byte>, request: nat, response: nat)
    requires 42 <= |bytes| && response == 0x1FF && !L.Bit(request, 2)
    ensures L.Offset(request, response, L.FIELDS) <= |bytes|
    ensures L.FieldAt(bytes, request, response, 0) == Some(bytes[8..8 + 2])
    ensures L.FieldAt(bytes, request, response, 1) == Some(bytes[10..10 + 2])
    ensures L.FieldAt(bytes, request, response, 2) == Some(bytes[12..12 + 4])
    ensures L.FieldAt(bytes, request, response, 3) == Some(bytes[16..16 + 4])
    ensures L.FieldAt(bytes, request, response, 4) == Some(bytes[20..20 + 2])
    ensures L.FieldAt(bytes, request, response, 5) == Some(bytes[22..22 + 2])
    ensures L.FieldAt(bytes, request, response, 6) == Some(bytes[24..24 + 2])
    ensures L.FieldAt(bytes, request, response, 7) == Some(bytes[26..26 + 16])
    ensures L.FieldAt(bytes, request, response, 8) == None
  {
    AllOffsets(request, response);
    hide L.Present, L.Bit, L.Offset;
  }

  lemma NumberAt(bytes: seq<byte>, at: nat)
    requires at + 2 <= |bytes|
    ensures L.NumberOf(Some(bytes[at..at + 2])) == Some(Word(bytes, at))
    ensures L.SignedOf(Some(bytes[at..at + 2])) == Some(Complement(Word(bytes, at), 0x1_0000))
  {
    L.Sizes();
    FromTwo(bytes, at);
    hide L.FromLe, Word, L.Pow256;
  }

  lemma PositionAt(bytes: seq<byte>, at: nat)
    requires at + 4 <= |bytes|
    ensures L.SignedOf(Some(bytes[at..at + 4])) == Some(Complement(Long(bytes, at), 0x1_0000_0000))
  {
    L.Sizes();
    FromFour(bytes, at);
    hide L.FromLe, Long, L.Pow256;
  }

  lemma MonitoringAt(bytes: seq<byte>, at: nat)
    requires at + 16 <= |bytes|
    ensures
      L.MonitoringOf(Some(bytes[at..at + 16]))
      == Some((Long(bytes, at), Long(bytes, at + 4), Long(bytes, at + 8), Long(bytes, at + 12)))
  {
    FromFour(bytes, at);
    FromFour(bytes, at + 4);
    FromFour(bytes, at + 8);
    FromFour(bytes, at + 12);
    hide L.FromLe, Long;
    var m := bytes[at..at + 16];
    assert m[..4] == bytes[at..at + 4] && m[4..8] == bytes[at + 4..at + 4 + 4];
    assert m[8..12] == bytes[at + 8..at + 8 + 4] && m[12..16] == bytes[at + 12..at + 12 + 4];
  }

  /** A full response: status, state, two positions, current, warnings, error, and four monitored values. */
  lemma ResponseLayout(bytes: seq<byte>)
    requires 42 <= |bytes| && Long(bytes, 4) == 0x1FF && Long(bytes, 0) / 4 % 2 == 0
    ensures L.HoldsResponse(bytes)
    ensures
      var r := L.ParseResponse(bytes);
      && r.statusFlags == Some(Word(bytes, 8)) && r.rawState == Some(Word(bytes, 10))
      && r.actualPosition == Some(Complement(Long(bytes, 12), 0x1_0000_0000))
      && r.demandPosition == Some(Complement(Long(bytes, 16), 0x1_0000_0000))
      && r.current == Some(Complement(Word(bytes, 20), 0x1_0000))
      && r.warningFlags == Some(Word(bytes, 22)) && r.rawErrorCode == Some(Word(bytes, 24))
      && r.monitoring == Some((Long(bytes, 26), Long(bytes, 30), Long(bytes, 34), Long(bytes, 38)))
      && r.realtime == None
  {
    FromFour(bytes, 0);
    FromFour(bytes, 4);
    assert bytes[0..4] == bytes[..4] && bytes[4..4 + 4] == bytes[4..8];
    var q, p := L.RequestBits(bytes), L.ResponseBits(bytes);
    assert !L.Bit(q, 2);
    FullFields(bytes, q, p);
    NumberAt(bytes, 8);
    NumberAt(bytes, 10);
    PositionAt(bytes, 12);
    PositionAt(bytes, 16);
    NumberAt(bytes, 20);
    NumberAt(bytes, 22);
    NumberAt(bytes, 24);
    MonitoringAt(bytes, 26);
    hide L.FromLe, L.Present, L.Bit, L.Offset, L.FieldAt, L.NumberOf, L.SignedOf, L.MonitoringOf, Word, Long, Complement;
  }
}

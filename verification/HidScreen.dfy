/**
  Screen specifications: their encoding, its fragments, and the firmware that puts the fragments
  together in whatever order they arrive, after section 2.4.2 of the HID protocol document.
 */
module HidScreen {
  import opened Base
  import opened HidMessages
  import opened HidWire

  // ----- the encoding -----

  function Nul(text: cstring): seq<byte> {
    text + [0]
  }

  function EncodeStrings(strings: seq<cstring>): seq<byte> {
    if strings == [] then [] else Nul(strings[0]) + EncodeStrings(strings[1..])
  }

  function LabelStrings(labels: seq<EncoderLabel>): (r: seq<cstring>)
    ensures |r| == 2 * |labels|
  {
    if labels == [] then [] else [labels[0].primary, labels[0].secondary] + LabelStrings(labels[1..])
  }

  function EncodeItem(item: MenuItem): seq<byte> {
    [item.itemId, if item.enabled then 1 else 0] + Nul(item.text)
  }

  function EncodeItems(items: seq<MenuItem>): seq<byte> {
    if items == [] then [] else EncodeItem(items[0]) + EncodeItems(items[1..])
  }

  predicate EncodableMain(main: DisplayContent) {
    match main
    case TextLines(_, lines) => |lines| <= 255
    case Menu(_, _, items) => |items| <= 255 && forall i | 0 <= i < |items| :: items[i].itemId <= 63
  }

  function EncodeMain(main: DisplayContent): seq<byte>
    requires EncodableMain(main)
  {
    match main
    case TextLines(topMargin, lines) => [0, topMargin, |lines|] + EncodeStrings(lines)
    case Menu(topMargin, title, items) => [1, topMargin] + Nul(title) + [|items|] + EncodeItems(items)
  }

  function LeU16(value: u16): seq<byte> {
    [value % 256, value / 256]
  }

  function EncodeArea(area: Area): seq<byte>
    requires EncodableMain(area.main)
  {
    EncodeMain(area.main) + ([area.animation] + LeU16(area.duration) + LeU16(area.delay))
  }

  predicate EncodableScreen(spec: ScreenSpec) {
    |spec.encoderLabels| == 4 && EncodableMain(spec.left.main) && EncodableMain(spec.right.main)
  }

  function Payload(spec: ScreenSpec): seq<byte>
    requires EncodableScreen(spec)
  {
    EncodeStrings(LabelStrings(spec.encoderLabels)) + (EncodeArea(spec.left) + EncodeArea(spec.right))
  }

  // ----- the firmware's decoder: each reader returns what it read and the bytes it left -----

  function ReadString(bytes: seq<byte>): Option<(cstring, seq<byte>)> {
    var n := StringEnd(bytes);
    if n == |bytes| then None else Some((bytes[..n], bytes[n + 1..]))
  }

  function ReadStrings(bytes: seq<byte>, count: nat): (r: Option<(seq<cstring>, seq<byte>)>)
    ensures r.Some? ==> |r.value.0| == count
  {
    if count == 0 then Some(([], bytes))
    else
      var first := ReadString(bytes);
      if first.None? then None
      else
        var rest := ReadStrings(first.value.1, count - 1);
        if rest.None? then None else Some(([first.value.0] + rest.value.0, rest.value.1))
  }

  function ReadItem(bytes: seq<byte>): Option<(MenuItem, seq<byte>)> {
    if |bytes| < 2 || bytes[0] > 63 then None
    else
      var text := ReadString(bytes[2..]);
      if text.None? then None else Some((MenuItem(bytes[0], bytes[1] % 2 == 1, text.value.0), text.value.1))
  }

  function ReadItems(bytes: seq<byte>, count: nat): Option<(seq<MenuItem>, seq<byte>)> {
    if count == 0 then Some(([], bytes))
    else
      var first := ReadItem(bytes);
      if first.None? then None
      else
        var rest := ReadItems(first.value.1, count - 1);
        if rest.None? then None else Some(([first.value.0] + rest.value.0, rest.value.1))
  }

  function ReadTextLines(bytes: seq<byte>): Option<(DisplayContent, seq<byte>)> {
    if |bytes| < 2 then None
    else
      var lines := ReadStrings(bytes[2..], bytes[1]);
      if lines.None? then None else Some((TextLines(bytes[0], lines.value.0), lines.value.1))
  }

  function ReadMenu(bytes: seq<byte>): Option<(DisplayContent, seq<byte>)> {
    if |bytes| < 1 then None
    else
      var title := ReadString(bytes[1..]);
      if title.None? || title.value.1 == [] then None
      else
        var items := ReadItems(title.value.1[1..], title.value.1[0]);
        if items.None? then None else Some((Menu(bytes[0], title.value.0, items.value.0), items.value.1))
  }

  function ReadMain(bytes: seq<byte>): Option<(DisplayContent, seq<byte>)> {
    if bytes == [] || bytes[0] > 1 then None
    else if bytes[0] == 0 then ReadTextLines(bytes[1..]) else ReadMenu(bytes[1..])
  }

  function FromLeU16(lo: int, hi: int): int {
    lo + 256 * hi
  }

  function ReadArea(bytes: seq<byte>): Option<(Area, seq<byte>)> {
    var main := ReadMain(bytes);
    if main.None? || |main.value.1| < 5 then None
    else
      var b := main.value.1;
      Some((Area(main.value.0, b[0], FromLeU16(b[1], b[2]), FromLeU16(b[3], b[4])), b[5..]))
  }

  function Labels(strings: seq<cstring>): seq<EncoderLabel> {
    if |strings| < 2 then [] else [EncoderLabel(strings[0], strings[1])] + Labels(strings[2..])
  }

  function DecodeScreen(screenId: byte, bytes: seq<byte>): Option<ScreenSpec> {
    var labels := ReadStrings(bytes, 8);
    if labels.None? then None
    else
      var left := ReadArea(labels.value.1);
      if left.None? then None
      else
        var right := ReadArea(left.value.1);
        if right.None? then None
        else Some(ScreenSpec(screenId, Labels(labels.value.0), left.value.0, right.value.0))
  }

  // ----- round trip -----

  lemma StringRoundTrip(text: cstring, rest: seq<byte>)
    ensures ReadString(Nul(text) + rest) == Some((text, rest))
  {
    StringEndFound(text, rest);
    assert (text + [0] + rest)[..|text|] == text;
    assert (text + [0] + rest)[|text| + 1..] == rest;
  }

  lemma {:induction false} StringsRoundTrip(strings: seq<cstring>, rest: seq<byte>)
    ensures ReadStrings(EncodeStrings(strings) + rest, |strings|) == Some((strings, rest))
  {
    hide ReadString, Nul;
    if strings == [] {
      assert EncodeStrings(strings) + rest == rest;
    } else {
      var tail := EncodeStrings(strings[1..]) + rest;
      assert EncodeStrings(strings) + rest == Nul(strings[0]) + tail;
      StringRoundTrip(strings[0], tail);
      StringsRoundTrip(strings[1..], rest);
      assert [strings[0]] + strings[1..] == strings;
    }
  }

  lemma ItemRoundTrip(item: MenuItem, rest: seq<byte>)
    requires item.itemId <= 63
    ensures ReadItem(EncodeItem(item) + rest) == Some((item, rest))
  {
    var bytes := EncodeItem(item) + rest;
    assert bytes[2..] == Nul(item.text) + rest;
    StringRoundTrip(item.text, rest);
  }

  lemma {:induction false} ItemsRoundTrip(items: seq<MenuItem>, rest: seq<byte>)
    requires forall i | 0 <= i < |items| :: items[i].itemId <= 63
    ensures ReadItems(EncodeItems(items) + rest, |items|) == Some((items, rest))
  {
    hide ReadItem, EncodeItem;
    if items == [] {
      assert EncodeItems(items) + rest == rest;
    } else {
      var tail := EncodeItems(items[1..]) + rest;
      assert EncodeItems(items) + rest == EncodeItem(items[0]) + tail;
      ItemRoundTrip(items[0], tail);
      ItemsRoundTrip(items[1..], rest);
      assert [items[0]] + items[1..] == items;
    }
  }

  lemma TextLinesRoundTrip(topMargin: byte, lines: seq<cstring>, rest: seq<byte>)
    requires |lines| <= 255
    ensures ReadTextLines([topMargin, |lines|] + EncodeStrings(lines) + rest) == Some((TextLines(topMargin, lines), rest))
  {
    hide EncodeStrings, ReadStrings;
    var bytes := [topMargin, |lines| as byte] + EncodeStrings(lines) + rest;
    assert bytes[2..] == EncodeStrings(lines) + rest;
    StringsRoundTrip(lines, rest);
  }

  lemma MenuRoundTrip(topMargin: byte, title: cstring, items: seq<MenuItem>, rest: seq<byte>)
    requires EncodableMain(Menu(topMargin, title, items))
    ensures ReadMenu([topMargin] + (Nul(title) + ([|items|] + (EncodeItems(items) + rest))))
         == Some((Menu(topMargin, title, items), rest))
  {
    hide Nul, ReadString, EncodeItems, ReadItems;
    var code := EncodeItems(items) + rest;
    var tail := [|items| as byte] + code;
    var bytes := [topMargin] + (Nul(title) + tail);
    assert bytes[1..] == Nul(title) + tail;
    StringRoundTrip(title, tail);
    assert tail[1..] == EncodeItems(items) + rest;
    ItemsRoundTrip(items, rest);
  }

  lemma MainBytes(main: DisplayContent, rest: seq<byte>)
    requires EncodableMain(main)
    ensures
      var bytes := EncodeMain(main) + rest;
      match main
      case TextLines(topMargin, lines) =>
        bytes != [] && bytes[0] == 0 && bytes[1..] == [topMargin, |lines|] + EncodeStrings(lines) + rest
      case Menu(topMargin, title, items) =>
        && bytes != [] && bytes[0] == 1
        && bytes[1..] == [topMargin] + (Nul(title) + ([|items|] + (EncodeItems(items) + rest)))
  {
    hide EncodeStrings, EncodeItems, Nul;
  }

  lemma MainRoundTrip(main: DisplayContent, rest: seq<byte>)
    requires EncodableMain(main)
    ensures ReadMain(EncodeMain(main) + rest) == Some((main, rest))
  {
    hide EncodeMain, ReadTextLines, ReadMenu, EncodeStrings, EncodeItems, Nul;
    MainBytes(main, rest);
    match main
    case TextLines(topMargin, lines) => TextLinesRoundTrip(topMargin, lines, rest);
    case Menu(topMargin, title, items) => MenuRoundTrip(topMargin, title, items, rest);
  }

  lemma AreaRoundTrip(area: Area, rest: seq<byte>)
    requires EncodableMain(area.main)
    ensures ReadArea(EncodeArea(area) + rest) == Some((area, rest))
  {
    hide EncodeMain, ReadMain;
    var tail := [area.animation] + LeU16(area.duration) + LeU16(area.delay) + rest;
    assert EncodeArea(area) + rest == EncodeMain(area.main) + tail;
    MainRoundTrip(area.main, tail);
    assert tail[5..] == rest;
  }

  lemma {:induction false} LabelsRoundTrip(labels: seq<EncoderLabel>)
    ensures Labels(LabelStrings(labels)) == labels
  {
    if labels != [] {
      var rest := LabelStrings(labels[1..]);
      assert ([labels[0].primary, labels[0].secondary] + rest)[2..] == rest;
      LabelsRoundTrip(labels[1..]);
    }
  }

  /** The encoding is self-delimiting: whatever follows it, the firmware reads the screen back. */
  lemma ScreenRoundTrip(spec: ScreenSpec, rest: seq<byte>)
    requires EncodableScreen(spec)
    ensures DecodeScreen(spec.screenId, Payload(spec) + rest) == Some(spec)
  {
    hide EncodeArea, ReadArea;
    var strings := LabelStrings(spec.encoderLabels);
    var tail := EncodeArea(spec.left) + (EncodeArea(spec.right) + rest);
    assert Payload(spec) + rest == EncodeStrings(strings) + tail;
    StringsRoundTrip(strings, tail);
    AreaRoundTrip(spec.left, EncodeArea(spec.right) + rest);
    AreaRoundTrip(spec.right, rest);
    LabelsRoundTrip(spec.encoderLabels);
  }

  // ----- fragments -----

  const CHUNK: nat := 60

  function FragmentCount(length: nat): nat {
    (length + CHUNK - 1) / CHUNK
  }

  function Padded(payload: seq<byte>): (r: seq<byte>)
    ensures |r| == CHUNK * FragmentCount(|payload|)
  {
    payload + Zeros(CHUNK * FragmentCount(|payload|) - |payload|)
  }

  function Chunk(payload: seq<byte>, i: nat): (r: seq<byte>)
    requires i < FragmentCount(|payload|)
    ensures |r| == CHUNK
  {
    Padded(payload)[CHUNK * i..CHUNK * (i + 1)]
  }

  function Fragment(screenId: byte, payload: seq<byte>, i: nat): (r: seq<byte>)
    requires i < FragmentCount(|payload|) <= 255
    ensures |r| == REPORT_LEN
  {
    [1, screenId, FragmentCount(|payload|), i] + Chunk(payload, i)
  }

  // The firmware's buffer for the screen whose fragments are arriving.
  datatype Assembly = Assembly(screenId: byte, total: nat, parts: map<nat, seq<byte>>)

  // A fragment of another screen discards what has been buffered.
  function OnFragment(buffer: Option<Assembly>, report: seq<byte>): Assembly
    requires |report| == REPORT_LEN
  {
    if buffer.Some? && buffer.value.screenId == report[1] then
      buffer.value.(parts := buffer.value.parts[report[3] as nat := report[4..]])
    else Assembly(report[1], report[2], map[report[3] as nat := report[4..]])
  }

  predicate Complete(a: Assembly) {
    forall i | 0 <= i < a.total :: i in a.parts
  }

  function Join(parts: map<nat, seq<byte>>, n: nat): seq<byte>
    requires forall i | 0 <= i < n :: i in parts
  {
    if n == 0 then [] else Join(parts, n - 1) + parts[n - 1]
  }

  // The buffer after the first n fragments of an order of arrival.
  function Arrived(buffer: Option<Assembly>, screenId: byte, payload: seq<byte>, order: seq<nat>, n: nat): Option<Assembly>
    requires FragmentCount(|payload|) <= 255 && n <= |order|
    requires forall i | 0 <= i < |order| :: order[i] < FragmentCount(|payload|)
  {
    if n == 0 then buffer
    else Some(OnFragment(Arrived(buffer, screenId, payload, order, n - 1), Fragment(screenId, payload, order[n - 1])))
  }

  // What has been buffered, if it is for this screen, is part of it.
  predicate NothingElse(buffer: Option<Assembly>, screenId: byte, payload: seq<byte>) {
    buffer.Some? && buffer.value.screenId == screenId ==>
      && buffer.value.total == FragmentCount(|payload|)
      && forall i | i in buffer.value.parts :: i < FragmentCount(|payload|) && buffer.value.parts[i] == Chunk(payload, i)
  }

  lemma {:induction false} ArrivedParts(
    buffer: Option<Assembly>, screenId: byte, payload: seq<byte>, order: seq<nat>, n: nat
  )
    requires FragmentCount(|payload|) <= 255 && n <= |order|
    requires forall i | 0 <= i < |order| :: order[i] < FragmentCount(|payload|)
    requires NothingElse(buffer, screenId, payload)
    ensures
      var a := Arrived(buffer, screenId, payload, order, n);
      && NothingElse(a, screenId, payload)
      && (n > 0 ==> a.Some? && a.value.screenId == screenId && forall i | 0 <= i < n :: order[i] in a.value.parts)
  {
    hide Chunk;
    if n > 0 {
      var report := Fragment(screenId, payload, order[n - 1]);
      assert report[4..] == Chunk(payload, order[n - 1]);
      ArrivedParts(buffer, screenId, payload, order, n - 1);
    }
  }

  lemma {:induction false} JoinChunks(parts: map<nat, seq<byte>>, payload: seq<byte>, n: nat)
    requires n <= FragmentCount(|payload|)
    requires forall i | 0 <= i < n :: i in parts && parts[i] == Chunk(payload, i)
    ensures Join(parts, n) == Padded(payload)[..CHUNK * n]
  {
    if n > 0 {
      JoinChunks(parts, payload, n - 1);
      assert parts[n - 1] == Padded(payload)[CHUNK * (n - 1)..CHUNK * n];
    }
  }

  lemma PaddingIsShort(payload: seq<byte>) returns (zeros: nat)
    ensures zeros < CHUNK && Padded(payload) == payload + Zeros(zeros)
  {
    zeros := CHUNK * FragmentCount(|payload|) - |payload|;
  }

  // Once each fragment has arrived, the payload and its padding are there.
  lemma PartsJoin(buffer: Option<Assembly>, screenId: byte, payload: seq<byte>, order: seq<nat>)
    requires 0 < FragmentCount(|payload|) <= 255
    requires forall i | 0 <= i < |order| :: order[i] < FragmentCount(|payload|)
    requires forall k | 0 <= k < FragmentCount(|payload|) :: k in order
    requires NothingElse(buffer, screenId, payload)
    ensures
      var a := Arrived(buffer, screenId, payload, order, |order|);
      && a.Some? && Complete(a.value) && Join(a.value.parts, a.value.total) == Padded(payload)
  {
    hide Chunk, Padded, FragmentCount, Fragment, OnFragment, Join;
    assert 0 in order;
    ArrivedParts(buffer, screenId, payload, order, |order|);
    var a := Arrived(buffer, screenId, payload, order, |order|).value;
    forall k | 0 <= k < a.total ensures k in a.parts {
      assert k in order;
    }
    JoinChunks(a.parts, payload, a.total);
    assert Padded(payload)[..CHUNK * a.total] == Padded(payload);
  }

  /**
    However the fragments of a screen are ordered, however often some of them are repeated, and whatever
    is buffered of other screens or of an earlier sending of this one, once each has arrived the firmware
    holds the payload followed by fewer than 60 zeros, and decodes it to the screen that was sent.
   */
  lemma FragmentsReassemble(buffer: Option<Assembly>, spec: ScreenSpec, order: seq<nat>)
    requires EncodableScreen(spec) && FragmentCount(|Payload(spec)|) <= 255
    requires forall i | 0 <= i < |order| :: order[i] < FragmentCount(|Payload(spec)|)
    requires forall k | 0 <= k < FragmentCount(|Payload(spec)|) :: k in order
    requires NothingElse(buffer, spec.screenId, Payload(spec))
    ensures
      var a := Arrived(buffer, spec.screenId, Payload(spec), order, |order|);
      && a.Some? && Complete(a.value)
      && (exists zeros: nat :: zeros < CHUNK && Join(a.value.parts, a.value.total) == Payload(spec) + Zeros(zeros))
      && DecodeScreen(spec.screenId, Join(a.value.parts, a.value.total)) == Some(spec)
  {
    hide *;
    var payload := Payload(spec);
    PayloadNotEmpty(spec);
    PartsJoin(buffer, spec.screenId, payload, order);
    var zeros := PaddingIsShort(payload);
    ScreenRoundTrip(spec, Zeros(zeros));
  }

  lemma PayloadNotEmpty(spec: ScreenSpec)
    requires EncodableScreen(spec)
    ensures 0 < |Payload(spec)| && 0 < FragmentCount(|Payload(spec)|)
  {
    assert |EncodeArea(spec.left)| >= 5;
  }

  // ----- the methods of the program -----

  /** Encodes the screen, or refuses one with too many lines or items or an item out of range. */
  method EncodeScreen(spec: ScreenSpec) returns (payload: Option<seq<byte>>)
    requires |spec.encoderLabels| == 4
    ensures payload == if EncodableScreen(spec) then Some(Payload(spec)) else None
  {
    hide EncodeArea, EncodableMain, Nul;
    var bytes: seq<byte> := [];
    assert spec.encoderLabels[0..] == spec.encoderLabels;
    for i := 0 to |spec.encoderLabels|
      invariant EncodeStrings(LabelStrings(spec.encoderLabels))
             == bytes + EncodeStrings(LabelStrings(spec.encoderLabels[i..]))
    {
      var one := spec.encoderLabels[i];
      UnfoldLabels(spec.encoderLabels, i);
      bytes := bytes + one.primary + [0] + one.secondary + [0];
    }
    assert spec.encoderLabels[|spec.encoderLabels|..] == [];
    assert bytes == EncodeStrings(LabelStrings(spec.encoderLabels));
    var left := EncodeOneArea(spec.left);
    if left.None? {
      return None;
    }
    var right := EncodeOneArea(spec.right);
    if right.None? {
      return None;
    }
    ghost var labels := bytes;
    bytes := bytes + left.value;
    bytes := bytes + right.value;
    assert bytes == labels + (left.value + right.value);
    return Some(bytes);
  }

  lemma UnfoldLabels(labels: seq<EncoderLabel>, i: nat)
    requires i < |labels|
    ensures EncodeStrings(LabelStrings(labels[i..]))
         == labels[i].primary + [0] + labels[i].secondary + [0] + EncodeStrings(LabelStrings(labels[i + 1..]))
  {
    var rest := LabelStrings(labels[i + 1..]);
    assert labels[i..][1..] == labels[i + 1..];
    var strings := [labels[i].primary, labels[i].secondary] + rest;
    assert LabelStrings(labels[i..]) == strings;
    assert strings[1..] == [labels[i].secondary] + rest && strings[1..][1..] == rest;
    assert EncodeStrings(strings) == Nul(strings[0]) + (Nul(strings[1..][0]) + EncodeStrings(rest));
  }

  method EncodeOneArea(area: Area) returns (bytes: Option<seq<byte>>)
    ensures bytes == if EncodableMain(area.main) then Some(EncodeArea(area)) else None
  {
    hide EncodeMain, EncodableMain;
    bytes := EncodeContent(area.main);
    if bytes.None? {
      return;
    }
    var payload := bytes.value + [area.animation];
    payload := payload + LeU16(area.duration);
    payload := payload + LeU16(area.delay);
    assert payload == EncodeMain(area.main) + ([area.animation] + LeU16(area.duration) + LeU16(area.delay));
    return Some(payload);
  }

  method EncodeContent(main: DisplayContent) returns (bytes: Option<seq<byte>>)
    ensures bytes == if EncodableMain(main) then Some(EncodeMain(main)) else None
  {
    var payload: seq<byte> := [];
    match main {
      case TextLines(topMargin, lines) =>
        if |lines| > 255 {
          return None;
        }
        payload := [0, topMargin, |lines|];
        for i := 0 to |lines|
          invariant [0, topMargin, |lines|] + EncodeStrings(lines) == payload + EncodeStrings(lines[i..])
        {
          assert lines[i..][1..] == lines[i + 1..];
          payload := payload + lines[i] + [0];
        }
        assert lines[|lines|..] == [] && payload + [] == payload;
      case Menu(topMargin, title, items) =>
        if |items| > 255 {
          return None;
        }
        payload := [1, topMargin] + title + [0] + [|items|];
        ghost var head := payload;
        for i := 0 to |items|
          invariant head + EncodeItems(items) == payload + EncodeItems(items[i..])
          invariant forall k | 0 <= k < i :: items[k].itemId <= 63
        {
          if items[i].itemId > 63 {
            return None;
          }
          assert items[i..][1..] == items[i + 1..];
          payload := payload + [items[i].itemId, if items[i].enabled then 1 else 0] + items[i].text + [0];
        }
        assert items[|items|..] == [] && payload + [] == payload;
        assert head == [1, topMargin] + Nul(title) + [|items|];
    }
    return Some(payload);
  }

  /** Sends the fragments of a payload in order, unless there are more of them than a byte can count. */
  method SendScreenUpdate(screenId: byte, payload: seq<byte>) returns (ok: bool, reports: seq<seq<byte>>)
    ensures ok <==> FragmentCount(|payload|) <= 255
    ensures !ok ==> reports == []
    ensures ok ==> |reports| == FragmentCount(|payload|)
    ensures ok ==> forall i | 0 <= i < |reports| :: reports[i] == Fragment(screenId, payload, i)
  {
    reports := [];
    var count := (|payload| + CHUNK - 1) / CHUNK;
    if count > 255 {
      return false, reports;
    }
    for i := 0 to count
      invariant |reports| == i
      invariant forall k | 0 <= k < i :: reports[k] == Fragment(screenId, payload, k)
    {
      var buf := new byte[REPORT_LEN](_ => 0);
      buf[0], buf[1], buf[2], buf[3] := 1, screenId, count, i;
      var start := i * CHUNK;
      var end := Min((i + 1) * CHUNK, |payload|);
      assert buf[..4] == [1, screenId, count as byte, i as byte];
      CopyInto(buf, 4, payload[start..end]);
      FragmentBytes(screenId, payload, i, buf[..]);
      reports := reports + [buf[..]];
    }
    ok := true;
  }

  lemma FragmentBytes(screenId: byte, payload: seq<byte>, i: nat, bytes: seq<byte>)
    requires i < FragmentCount(|payload|) <= 255
    requires
      var end := Min((i + 1) * CHUNK, |payload|);
      && i * CHUNK <= end
      && bytes == [1, screenId, FragmentCount(|payload|), i] + payload[i * CHUNK..end]
                  + Zeros(CHUNK - (end - i * CHUNK))
    ensures bytes == Fragment(screenId, payload, i)
  {
    var end := Min((i + 1) * CHUNK, |payload|);
    assert Padded(payload)[CHUNK * i..CHUNK * (i + 1)] == payload[i * CHUNK..end] + Zeros(CHUNK - (end - i * CHUNK));
  }
}

/**
  VariableUpdate reports: the encoding of entries, their greedy packing into 64-byte reports, and the
  firmware's decoder, after section 2.4.3 of the HID protocol document.
 */
module HidWire {
  import opened Base
  import opened HidMessages

  const REPORT_LEN: nat := 64
  const HEADER_LEN: nat := 2
  const MAX_PAYLOAD: nat := 62

  function Zeros(n: nat): (r: seq<byte>)
    ensures |r| == n
  {
    seq(n, i => 0 as byte)
  }

  // ----- one entry -----

  // i16::to_le_bytes
  function Le16(value: i16): (r: seq<byte>)
    ensures |r| == 2
  {
    [value % 256, value / 256 % 256]
  }

  function FromLe16(lo: byte, hi: byte): i16 {
    var u := lo + 256 * hi;
    if u < 0x8000 then u else u - 0x1_0000
  }

  predicate Encodable(entry: VariableEntry) {
    match entry
    case FixedPoint(index, _, _) => index <= 31
    case ShortString(index, _) => index <= 31
    case Hardware(LedRingValue(ring, _)) => ring < 4
    case _ => true
  }

  function HardwareIndex(control: HardwareControl): byte {
    match control
    case LedRingValue(ring, _) => ring
    case Reset => 4
    case SleepLevel(_) => 5
  }

  function HardwareValue(control: HardwareControl): byte {
    match control
    case LedRingValue(_, value) => value
    case Reset => 1
    case SleepLevel(can) => if can then 1 else 0
  }

  // Tag (type in bits 6:5, index in bits 4:0) and payload.
  function Encode(entry: VariableEntry): (r: seq<byte>)
    requires Encodable(entry)
    ensures |r| == EncodedSize(entry)
  {
    match entry
    case FixedPoint(index, decimals, value) => [index, decimals] + Le16(value)
    case ShortString(index, text) => [32 + index] + text + [0]
    case Hardware(control) => [96 + HardwareIndex(control), HardwareValue(control)]
  }

  function EncodedSize(entry: VariableEntry): (n: nat)
    ensures 2 <= n
  {
    match entry
    case FixedPoint(_, _, _) => 4
    case ShortString(_, text) => 2 + |text|
    case Hardware(_) => 2
  }

  // The position of the first zero.
  function StringEnd(bytes: seq<byte>): (n: nat)
    ensures n <= |bytes|
    ensures forall i | 0 <= i < n :: bytes[i] != 0
    ensures n < |bytes| ==> bytes[n] == 0
  {
    if bytes == [] || bytes[0] == 0 then 0 else 1 + StringEnd(bytes[1..])
  }

  lemma {:induction false} StringEndFound(text: cstring, rest: seq<byte>)
    ensures StringEnd(text + [0] + rest) == |text|
  {
    var all := text + [0] + rest;
    assert all[|text|] == 0;
    assert forall i | 0 <= i < |text| :: all[i] == text[i] != 0;
  }

  function DecodeHardware(index: nat, value: byte): Option<HardwareControl> {
    if index < 4 then Some(LedRingValue(index, value))
    else if index == 4 && value == 1 then Some(Reset)
    else if index == 5 && value <= 1 then Some(SleepLevel(value == 1))
    else None
  }

  // The entry that the bytes begin with, and how many of them it takes.
  function DecodeEntry(bytes: seq<byte>): (r: Option<(VariableEntry, nat)>)
    ensures r.Some? ==> 2 <= r.value.1 <= |bytes|
  {
    if |bytes| < 2 || bytes[0] >= 128 then None
    else
      var index: byte := bytes[0] % 32;
      match bytes[0] / 32
      case 0 =>
        if |bytes| < 4 then None else Some((FixedPoint(index, bytes[1], FromLe16(bytes[2], bytes[3])), 4))
      case 1 =>
        var n := StringEnd(bytes[1..]);
        if |bytes| <= n + 1 then None
        else
          assert forall i | 0 <= i < n :: bytes[1..][i] != 0;
          Some((ShortString(index, bytes[1..][..n]), n + 2))
      case 3 =>
        var control := DecodeHardware(index, bytes[1]);
        if control.Some? then Some((Hardware(control.value), 2)) else None
      case _ => None
  }

  lemma HighByte(h: int)
    requires -128 <= h < 128
    ensures h % 256 == if h < 0 then h + 256 else h
  {
    DivUnique(h, 256, if h < 0 then -1 else 0);
  }

  lemma Le16RoundTrip(value: i16)
    ensures FromLe16(Le16(value)[0], Le16(value)[1]) == value
  {
    var h, l := value / 256, value % 256;
    assert value == 256 * h + l;
    HighByte(h);
  }

  lemma FixedPointRoundTrip(index: byte, decimals: byte, value: i16, rest: seq<byte>)
    requires index <= 31
    ensures DecodeEntry([index, decimals] + Le16(value) + rest) == Some((FixedPoint(index, decimals, value), 4))
  {
    var all := [index, decimals] + Le16(value) + rest;
    Le16RoundTrip(value);
    hide Le16, FromLe16;
    assert all[0] == index && all[1] == decimals && all[2] == Le16(value)[0] && all[3] == Le16(value)[1];
  }

  lemma ShortStringRoundTrip(index: byte, text: cstring, rest: seq<byte>)
    requires index <= 31
    ensures DecodeEntry([32 + index] + text + [0] + rest) == Some((ShortString(index, text), 2 + |text|))
  {
    hide StringEnd;
    var all := [32 + index] + text + [0] + rest;
    assert all[1..] == text + [0] + rest;
    StringEndFound(text, rest);
    assert all[1..][..|text|] == text;
  }

  lemma HardwareRoundTrip(control: HardwareControl, rest: seq<byte>)
    requires Encodable(Hardware(control))
    ensures DecodeEntry([96 + HardwareIndex(control), HardwareValue(control)] + rest) == Some((Hardware(control), 2))
  {
  }

  lemma EntryRoundTrip(entry: VariableEntry, rest: seq<byte>)
    requires Encodable(entry)
    ensures DecodeEntry(Encode(entry) + rest) == Some((entry, EncodedSize(entry)))
  {
    hide DecodeEntry;
    match entry
    case FixedPoint(index, decimals, value) => FixedPointRoundTrip(index, decimals, value, rest);
    case ShortString(index, text) => ShortStringRoundTrip(index, text, rest);
    case Hardware(control) => HardwareRoundTrip(control, rest);
  }

  // ----- a report -----

  predicate AllEncodable(entries: seq<VariableEntry>) {
    forall i | 0 <= i < |entries| :: Encodable(entries[i])
  }

  function SizeOf(entries: seq<VariableEntry>): nat {
    if entries == [] then 0 else EncodedSize(entries[0]) + SizeOf(entries[1..])
  }

  function EncodeAll(entries: seq<VariableEntry>): (r: seq<byte>)
    requires AllEncodable(entries)
    ensures |r| == SizeOf(entries)
  {
    if entries == [] then [] else Encode(entries[0]) + EncodeAll(entries[1..])
  }

  // A group of entries that one report can carry.
  predicate Fits(group: seq<VariableEntry>) {
    AllEncodable(group) && SizeOf(group) <= MAX_PAYLOAD
  }

  function Render(group: seq<VariableEntry>): (r: seq<byte>)
    requires Fits(group)
    ensures |r| == REPORT_LEN
  {
    CountBound(group);
    [2, |group|] + EncodeAll(group) + Zeros(MAX_PAYLOAD - SizeOf(group))
  }

  /** A report carries at most 31 entries. */
  lemma {:induction false} CountBound(group: seq<VariableEntry>)
    ensures 2 * |group| <= SizeOf(group)
  {
    if group != [] { CountBound(group[1..]); }
  }

  function DecodeEntries(bytes: seq<byte>, count: nat): Option<seq<VariableEntry>> {
    if count == 0 then Some([])
    else
      var first := DecodeEntry(bytes);
      if first.None? then None
      else
        var rest := DecodeEntries(bytes[first.value.1..], count - 1);
        if rest.None? then None else Some([first.value.0] + rest.value)
  }

  function DecodeReport(report: seq<byte>): Option<seq<VariableEntry>> {
    if |report| != REPORT_LEN || report[0] != 2 then None
    else DecodeEntries(report[HEADER_LEN..], report[1])
  }

  lemma DecodesNext(bytes: seq<byte>, count: nat, entry: VariableEntry, size: nat, others: seq<VariableEntry>)
    requires DecodeEntry(bytes) == Some((entry, size))
    requires DecodeEntries(bytes[size..], count) == Some(others)
    ensures DecodeEntries(bytes, count + 1) == Some([entry] + others)
  {
    hide DecodeEntry;
  }

  lemma EncodesNext(entries: seq<VariableEntry>, rest: seq<byte>)
    requires AllEncodable(entries) && entries != []
    ensures
      var tail := EncodeAll(entries[1..]) + rest;
      && EncodeAll(entries) + rest == Encode(entries[0]) + tail
      && (Encode(entries[0]) + tail)[EncodedSize(entries[0])..] == tail
  {
    hide Encode, EncodedSize, Encodable;
  }

  lemma {:induction false} EntriesRoundTrip(entries: seq<VariableEntry>, rest: seq<byte>)
    requires AllEncodable(entries)
    ensures DecodeEntries(EncodeAll(entries) + rest, |entries|) == Some(entries)
  {
    if entries != [] {
      hide DecodeEntry, Encode, EncodedSize, Encodable, EncodeAll, DecodeEntries;
      var tail := EncodeAll(entries[1..]) + rest;
      EncodesNext(entries, rest);
      EntryRoundTrip(entries[0], tail);
      EntriesRoundTrip(entries[1..], rest);
      DecodesNext(Encode(entries[0]) + tail, |entries| - 1, entries[0], EncodedSize(entries[0]), entries[1..]);
      assert [entries[0]] + entries[1..] == entries;
    }
  }

  /** The firmware reads from a report just the entries that were put in it. */
  lemma ReportRoundTrip(group: seq<VariableEntry>)
    requires Fits(group)
    ensures DecodeReport(Render(group)) == Some(group)
  {
    var padding := Zeros(MAX_PAYLOAD - SizeOf(group));
    CountBound(group);
    assert Render(group)[HEADER_LEN..] == EncodeAll(group) + padding;
    EntriesRoundTrip(group, padding);
  }

  // ----- packing -----

  predicate Sendable(entry: VariableEntry) {
    Encodable(entry) && EncodedSize(entry) <= MAX_PAYLOAD
  }

  predicate AllSendable(entries: seq<VariableEntry>) {
    forall i | 0 <= i < |entries| :: Sendable(entries[i])
  }

  // The greedy packing of `entries` behind a report that has been begun.
  function PackFrom(begun: seq<VariableEntry>, entries: seq<VariableEntry>): seq<seq<VariableEntry>>
    decreases |entries|
  {
    if entries == [] then if begun == [] then [] else [begun]
    else if begun != [] && SizeOf(begun) + EncodedSize(entries[0]) > MAX_PAYLOAD then
      [begun] + PackFrom([entries[0]], entries[1..])
    else PackFrom(begun + [entries[0]], entries[1..])
  }

  function Pack(entries: seq<VariableEntry>): seq<seq<VariableEntry>> {
    PackFrom([], entries)
  }

  function Concat(groups: seq<seq<VariableEntry>>): seq<VariableEntry> {
    if groups == [] then [] else groups[0] + Concat(groups[1..])
  }

  predicate AllFit(groups: seq<seq<VariableEntry>>) {
    forall i | 0 <= i < |groups| :: Fits(groups[i])
  }

  lemma {:induction false} SizeOfAppend(p: seq<VariableEntry>, q: seq<VariableEntry>)
    ensures SizeOf(p + q) == SizeOf(p) + SizeOf(q)
  {
    if p == [] {
      assert p + q == q;
    } else {
      assert (p + q)[1..] == p[1..] + q;
      SizeOfAppend(p[1..], q);
    }
  }

  lemma SizeOfOne(entry: VariableEntry)
    ensures SizeOf([entry]) == EncodedSize(entry)
  {
    assert SizeOf([entry][1..]) == 0;
  }

  /** The packing keeps every entry, in order, and every group fits a report. */
  lemma {:induction false} PackKeepsEntries(begun: seq<VariableEntry>, entries: seq<VariableEntry>)
    requires Fits(begun) && AllSendable(entries)
    ensures Concat(PackFrom(begun, entries)) == begun + entries
    ensures AllFit(PackFrom(begun, entries))
    decreases |entries|
  {
    if entries == [] {
      assert Concat([begun]) == begun + Concat([]);
      assert begun + entries == begun;
    } else {
      var first := entries[0];
      assert Sendable(first);
      SizeOfOne(first);
      assert entries == [first] + entries[1..];
      if begun != [] && SizeOf(begun) + EncodedSize(first) > MAX_PAYLOAD {
        PackKeepsEntries([first], entries[1..]);
        assert ([begun] + PackFrom([first], entries[1..]))[1..] == PackFrom([first], entries[1..]);
      } else {
        SizeOfAppend(begun, [first]);
        PackKeepsEntries(begun + [first], entries[1..]);
        assert begun + [first] + entries[1..] == begun + entries;
      }
    }
  }

  // ----- the packing is optimal -----

  // How many reports greedy packing takes behind a begun report with `used` bytes in it.
  function Reports(used: nat, entries: seq<VariableEntry>): nat
    decreases |entries|
  {
    if entries == [] then 1
    else
      var size := EncodedSize(entries[0]);
      if used + size > MAX_PAYLOAD then 1 + Reports(size, entries[1..]) else Reports(used + size, entries[1..])
  }

  lemma {:induction false} PackFromCount(begun: seq<VariableEntry>, entries: seq<VariableEntry>)
    requires begun != []
    ensures |PackFrom(begun, entries)| == Reports(SizeOf(begun), entries)
    decreases |entries|
  {
    if entries != [] {
      SizeOfOne(entries[0]);
      SizeOfAppend(begun, [entries[0]]);
      PackFromCount([entries[0]], entries[1..]);
      PackFromCount(begun + [entries[0]], entries[1..]);
    }
  }

  // A fuller begun report never saves a report, and costs at most one.
  lemma {:induction false} ReportsMono(used: nat, more: nat, entries: seq<VariableEntry>)
    requires used <= more
    ensures Reports(used, entries) <= Reports(more, entries) <= 1 + Reports(used, entries)
    decreases |entries|
  {
    if entries != [] {
      var size := EncodedSize(entries[0]);
      if more + size <= MAX_PAYLOAD {
        ReportsMono(used + size, more + size, entries[1..]);
      } else if used + size <= MAX_PAYLOAD {
        ReportsMono(size, used + size, entries[1..]);
      }
    }
  }

  lemma {:induction false} ReportsAbsorb(used: nat, group: seq<VariableEntry>, rest: seq<VariableEntry>)
    requires used + SizeOf(group) <= MAX_PAYLOAD
    ensures Reports(used, group + rest) == Reports(used + SizeOf(group), rest)
    decreases |group|
  {
    if group == [] {
      assert group + rest == rest;
    } else {
      assert (group + rest)[1..] == group[1..] + rest;
      ReportsAbsorb(used + EncodedSize(group[0]), group[1..], rest);
    }
  }

  lemma PackCount(entries: seq<VariableEntry>)
    requires entries != []
    ensures |Pack(entries)| == Reports(EncodedSize(entries[0]), entries[1..])
  {
    SizeOfOne(entries[0]);
    assert [] + [entries[0]] == [entries[0]];
    PackFromCount([entries[0]], entries[1..]);
  }

  lemma ReportsBeyond(used: nat, entries: seq<VariableEntry>)
    ensures Reports(used, entries) <= 1 + |Pack(entries)|
  {
    if entries != [] {
      PackCount(entries);
      var size := EncodedSize(entries[0]);
      ReportsMono(size, used + size, entries[1..]);
    }
  }

  // A group that fits costs at most one report more.
  lemma GroupCostsOne(group: seq<VariableEntry>, rest: seq<VariableEntry>)
    requires Fits(group)
    ensures |Pack(group + rest)| <= 1 + |Pack(rest)|
  {
    hide Reports, Pack, EncodedSize, AllEncodable;
    if group == [] {
      assert group + rest == rest;
    } else {
      PackCount(group + rest);
      assert (group + rest)[0] == group[0] && (group + rest)[1..] == group[1..] + rest;
      assert SizeOf(group) == EncodedSize(group[0]) + SizeOf(group[1..]);
      ReportsAbsorb(EncodedSize(group[0]), group[1..], rest);
      ReportsBeyond(SizeOf(group), rest);
    }
  }

  /** No split of the entries into groups that fit, in their order, takes fewer reports. */
  lemma {:induction false} PackIsOptimal(groups: seq<seq<VariableEntry>>)
    requires AllFit(groups)
    ensures |Pack(Concat(groups))| <= |groups|
  {
    if groups != [] {
      hide Fits, Pack;
      assert Fits(groups[0]) && AllFit(groups[1..]);
      PackIsOptimal(groups[1..]);
      GroupCostsOne(groups[0], Concat(groups[1..]));
    } else {
      assert Pack([]) == [];
    }
  }

  // ----- the methods of the program -----

  function RenderAll(groups: seq<seq<VariableEntry>>): (r: seq<seq<byte>>)
    requires AllFit(groups)
    ensures |r| == |groups|
  {
    seq(|groups|, i requires 0 <= i < |groups| => Render(groups[i]))
  }

  // Writes the bytes into the buffer from `offset` on.
  method CopyInto(buf: array<byte>, offset: nat, bytes: seq<byte>)
    requires offset + |bytes| <= buf.Length
    modifies buf
    ensures buf[..] == old(buf[..offset]) + bytes + old(buf[offset + |bytes|..])
  {
    for i := 0 to |bytes|
      invariant buf[..] == old(buf[..offset]) + bytes[..i] + old(buf[offset + i..])
    {
      buf[offset + i] := bytes[i];
    }
  }

  method EncodeEntry(entry: VariableEntry, buf: array<byte>, offset: nat) returns (ok: bool)
    requires offset + EncodedSize(entry) <= buf.Length
    modifies buf
    ensures ok <==> Encodable(entry)
    ensures !ok ==> buf[..] == old(buf[..])
    ensures ok ==> buf[..] == old(buf[..offset]) + Encode(entry) + old(buf[offset + EncodedSize(entry)..])
  {
    ok := true;
    match entry {
      case FixedPoint(index, decimals, value) =>
        if index > 31 { return false; }
        CopyInto(buf, offset, [index, decimals, value % 256, value / 256 % 256]);
      case ShortString(index, text) =>
        if index > 31 { return false; }
        CopyInto(buf, offset, [32 + index] + text + [0]);
      case Hardware(control) =>
        if control.LedRingValue? && control.ringId >= 4 { return false; }
        CopyInto(buf, offset, [96 + HardwareIndex(control), HardwareValue(control)]);
    }
  }

  // What the buffer holds while a report is filled: the header comes last.
  function Draft(group: seq<VariableEntry>): (r: seq<byte>)
    requires Fits(group)
    ensures |r| == REPORT_LEN
  {
    [0, 0] + EncodeAll(group) + Zeros(MAX_PAYLOAD - SizeOf(group))
  }

  lemma {:induction false} EncodeAllAppend(group: seq<VariableEntry>, entry: VariableEntry)
    requires AllEncodable(group) && Encodable(entry)
    ensures AllEncodable(group + [entry])
    ensures EncodeAll(group + [entry]) == EncodeAll(group) + Encode(entry)
  {
    hide Encode, EncodedSize, Encodable;
    if group == [] {
      assert group + [entry] == [entry];
      assert EncodeAll([entry]) == Encode(entry) + EncodeAll([]);
    } else {
      assert (group + [entry])[1..] == group[1..] + [entry];
      EncodeAllAppend(group[1..], entry);
    }
  }

  lemma Spliced(head: seq<byte>, code: seq<byte>, tail: seq<byte>)
    requires |code| <= |tail|
    ensures (head + tail)[..|head|] + code + (head + tail)[|head| + |code|..] == head + code + tail[|code|..]
  {
  }

  lemma DraftGrows(group: seq<VariableEntry>, entry: VariableEntry)
    requires Fits(group) && Encodable(entry) && SizeOf(group) + EncodedSize(entry) <= MAX_PAYLOAD
    ensures SizeOf(group + [entry]) == SizeOf(group) + EncodedSize(entry) && Fits(group + [entry])
    ensures
      var at := HEADER_LEN + SizeOf(group);
      Draft(group)[..at] + Encode(entry) + Draft(group)[at + EncodedSize(entry)..] == Draft(group + [entry])
  {
    hide Encode, EncodedSize, Encodable, EncodeAll, SizeOf;
    EncodeAllAppend(group, entry);
    SizeOfOne(entry);
    SizeOfAppend(group, [entry]);
    var head, tail, code := [0, 0] + EncodeAll(group), Zeros(MAX_PAYLOAD - SizeOf(group)), Encode(entry);
    Spliced(head, code, tail);
    assert tail[|code|..] == Zeros(MAX_PAYLOAD - SizeOf(group + [entry]));
    assert head + code == [0, 0] + EncodeAll(group + [entry]);
  }

  // Fills in the header of the report.
  method Finish(buf: array<byte>, count: byte, ghost group: seq<VariableEntry>)
    requires Fits(group) && count == |group| && buf[..] == Draft(group)
    modifies buf
    ensures buf[..] == Render(group)
  {
    buf[0] := 2;
    buf[1] := count;
    assert buf[2..] == Draft(group)[2..];
  }

  lemma RenderSnoc(done: seq<seq<VariableEntry>>, group: seq<VariableEntry>)
    requires AllFit(done) && Fits(group)
    ensures AllFit(done + [group]) && RenderAll(done + [group]) == RenderAll(done) + [Render(group)]
  {
  }

  // The state of the loop: the groups flushed, the group begun, for the entries seen so far.
  ghost predicate PackedSoFar(seen: seq<VariableEntry>, done: seq<seq<VariableEntry>>, group: seq<VariableEntry>) {
    forall rest :: Pack(seen + rest) == done + PackFrom(group, rest)
  }

  lemma PackNext(group: seq<VariableEntry>, entry: VariableEntry, rest: seq<VariableEntry>)
    ensures PackFrom(group, [entry] + rest)
         == if group != [] && SizeOf(group) + EncodedSize(entry) > MAX_PAYLOAD
            then [group] + PackFrom([entry], rest) else PackFrom(group + [entry], rest)
  {
    hide SizeOf, EncodedSize;
    assert ([entry] + rest)[0] == entry && ([entry] + rest)[1..] == rest;
  }

  lemma PackOneMore(
    seen: seq<VariableEntry>, done: seq<seq<VariableEntry>>, group: seq<VariableEntry>, entry: VariableEntry
  )
    requires PackedSoFar(seen, done, group)
    ensures
      if group != [] && SizeOf(group) + EncodedSize(entry) > MAX_PAYLOAD
      then PackedSoFar(seen + [entry], done + [group], [entry])
      else PackedSoFar(seen + [entry], done, group + [entry])
  {
    hide PackFrom, Pack, SizeOf, EncodedSize;
    forall rest
      ensures Pack(seen + [entry] + rest)
           == if group != [] && SizeOf(group) + EncodedSize(entry) > MAX_PAYLOAD
              then done + [group] + PackFrom([entry], rest) else done + PackFrom(group + [entry], rest)
    {
      assert seen + [entry] + rest == seen + ([entry] + rest);
      PackNext(group, entry, rest);
      assert done + ([group] + PackFrom([entry], rest)) == done + [group] + PackFrom([entry], rest);
    }
  }

  lemma PackedAt(seen: seq<VariableEntry>, done: seq<seq<VariableEntry>>, group: seq<VariableEntry>)
    requires PackedSoFar(seen, done, group) && AllFit(done) && Fits(group)
    ensures Pack(seen) == done + if group == [] then [] else [group]
    ensures AllFit(Pack(seen)) && RenderAll(done) <= RenderAll(Pack(seen))
  {
    assert seen + [] == seen;
    assert Pack(seen + []) == done + PackFrom(group, []);
    if group != [] { RenderSnoc(done, group); }
  }

  // What is known when an entry cannot be sent: the reports written are the first ones of its predecessors.
  ghost predicate StoppedAt(variables: seq<VariableEntry>, reports: seq<seq<byte>>, k: nat) {
    && k < |variables| && !Sendable(variables[k]) && AllSendable(variables[..k])
    && AllFit(Pack(variables[..k])) && reports <= RenderAll(Pack(variables[..k]))
  }

  lemma NothingPacked()
    ensures PackedSoFar([], [], [])
  {
    forall rest: seq<VariableEntry> ensures Pack([] + rest) == [] + PackFrom([], rest) {
      assert [] + rest == rest;
    }
  }

  lemma EmptyDraft(bytes: seq<byte>)
    requires bytes == Zeros(REPORT_LEN)
    ensures SizeOf([]) == 0 && bytes == Draft([])
  {
  }

  /** Packs the entries into reports, up to the first one that cannot be sent. */
  method SendVariableUpdates(variables: seq<VariableEntry>) returns (ok: bool, reports: seq<seq<byte>>)
    ensures ok <==> AllSendable(variables)
    ensures ok ==> AllFit(Pack(variables)) && reports == RenderAll(Pack(variables))
    ensures !ok ==> exists k :: StoppedAt(variables, reports, k)
  {
    hide Encode, EncodedSize, Encodable, SizeOf, EncodeAll, Draft, Render, PackFrom, Pack, PackedSoFar;
    reports := [];
    var buf := new byte[REPORT_LEN](_ => 0);
    var offset: nat, count: nat := HEADER_LEN, 0;
    ghost var done: seq<seq<VariableEntry>>, group: seq<VariableEntry> := [], [];
    assert buf[..] == Zeros(REPORT_LEN);
    EmptyDraft(buf[..]);
    NothingPacked();
    var i := 0;
    while i < |variables|
      invariant 0 <= i <= |variables| && fresh(buf) && buf.Length == REPORT_LEN
      invariant AllFit(done) && reports == RenderAll(done)
      invariant Fits(group) && buf[..] == Draft(group)
      invariant offset == HEADER_LEN + SizeOf(group) && count == |group|
      invariant AllSendable(variables[..i]) && PackedSoFar(variables[..i], done, group)
    {
      var entry := variables[i];
      var size := EncodedSize(entry);
      PackedAt(variables[..i], done, group);
      if size > MAX_PAYLOAD {
        assert StoppedAt(variables, reports, i);
        return false, reports;
      }
      PackOneMore(variables[..i], done, group, entry);
      CountBound(group);
      if offset + size > REPORT_LEN && count > 0 {
        Finish(buf, count, group);
        reports := reports + [buf[..]];
        RenderSnoc(done, group);
        done, group := done + [group], [];
        buf := new byte[REPORT_LEN](_ => 0);
        offset, count := HEADER_LEN, 0;
        assert buf[..] == Zeros(REPORT_LEN);
        EmptyDraft(buf[..]);
      }
      var encoded := EncodeEntry(entry, buf, offset);
      if !encoded {
        assert StoppedAt(variables, reports, i);
        return false, reports;
      }
      DraftGrows(group, entry);
      assert group == [] ==> group + [entry] == [entry];
      group := group + [entry];
      offset := offset + size;
      count := count + 1;
      assert variables[..i + 1] == variables[..i] + [entry];
      i := i + 1;
    }
    assert variables[..i] == variables;
    PackedAt(variables, done, group);
    CountBound(group);
    if count > 0 {
      Finish(buf, count, group);
      reports := reports + [buf[..]];
      RenderSnoc(done, group);
    }
    ok := true;
  }
}

/**
  The LinUDP codec: requests written field by field through a cursor over a buffer, and responses read
  back the same way, the flags in the header saying which fields there are.
 */
module LinUdp {
  import opened Base
  import opened HidMessages

  // ----- little-endian numbers -----

  function Le(value: nat, n: nat): (r: seq<byte>)
    ensures |r| == n
  {
    if n == 0 then [] else [value % 256] + Le(value / 256, n - 1)
  }

  function FromLe(bytes: seq<byte>): nat {
    if bytes == [] then 0 else bytes[0] + 256 * FromLe(bytes[1..])
  }

  function Pow256(n: nat): nat {
    if n == 0 then 1 else 256 * Pow256(n - 1)
  }

  lemma {:induction false} LeRoundTrip(value: nat, n: nat)
    requires value < Pow256(n)
    ensures FromLe(Le(value, n)) == value
  {
    if n > 0 {
      LeRoundTrip(value / 256, n - 1);
    }
  }

  // Two's complement in n bytes.
  function Unsigned(x: int, n: nat): int {
    if x < 0 then x + Pow256(n) else x
  }

  function Signed(u: nat, n: nat): int {
    if 2 * u < Pow256(n) then u else u - Pow256(n)
  }

  type i32 = x: int | I32_MIN <= x <= I32_MAX
  type u32 = x: int | 0 <= x < 0x1_0000_0000

  lemma Sizes()
    ensures Pow256(2) == 0x1_0000 && Pow256(4) == 0x1_0000_0000
  {
    assert Pow256(1) == 256 && Pow256(3) == 0x100_0000;
  }

  function LeI32(x: i32): (r: seq<byte>)
    ensures |r| == 4
  {
    Sizes();
    Le(Unsigned(x, 4), 4)
  }

  function I32From(bytes: seq<byte>): int
    requires |bytes| == 4
  {
    Signed(FromLe(bytes), 4)
  }

  lemma I32RoundTrip(x: i32)
    ensures I32From(LeI32(x)) == x
  {
    Sizes();
    LeRoundTrip(Unsigned(x, 4), 4);
  }

  // ----- motion commands -----

  datatype Command =
    | NoOperation
    | VaiGoToPos(targetPosition: i32, maximalVelocity: i32, acceleration: i32, deceleration: i32)
    | VaiIncrementDemPos(positionIncrement: i32, maximalVelocity: i32, acceleration: i32, deceleration: i32)
    | VaiGoToPosFromActPosAndActVel(targetPosition: i32, maximalVelocity: i32, acceleration: i32, deceleration: i32)
    | VaiStop(deceleration: i32)
    | PStreamWithDriveGeneratedTimeStamp(position: i32)
    | PvStreamWithDriveGeneratedTimeStamp(position: i32, velocity: i32)
    | PStreamWithDriveGeneratedTimeStampAndConfiguredPeriodTime(position: i32)
    | PvStreamWithDriveGeneratedTimeStampAndConfiguredPeriodTime(position: i32, velocity: i32)
    | PvaStreamWithDriveGeneratedTimeStamp(position: i32, velocity: i32, acceleration: i32)
    | PvaStreamWithDriveGeneratedTimeStampAndConfiguredPeriodTime(position: i32, velocity: i32, acceleration: i32)
    | PvaStreamWithControllerGeneratedTimeStamp(position: i32, velocity: i32, acceleration: i32)
    | StopStream
    | VajiGoToPos(
        targetPosition: i32, maximalVelocity: i32, maximalAcceleration: i32, maximalDeceleration: i32, jerk: i32)

  function Id(command: Command): (id: nat)
    ensures id <= 0x3A0
  {
    match command
    case NoOperation => 0x000
    case VaiGoToPos(_, _, _, _) => 0x010
    case VaiIncrementDemPos(_, _, _, _) => 0x011
    case VaiGoToPosFromActPosAndActVel(_, _, _, _) => 0x013
    case VaiStop(_) => 0x017
    case PStreamWithDriveGeneratedTimeStamp(_) => 0x030
    case PvStreamWithDriveGeneratedTimeStamp(_, _) => 0x031
    case PStreamWithDriveGeneratedTimeStampAndConfiguredPeriodTime(_) => 0x032
    case PvStreamWithDriveGeneratedTimeStampAndConfiguredPeriodTime(_, _) => 0x033
    case PvaStreamWithDriveGeneratedTimeStamp(_, _, _) => 0x034
    case PvaStreamWithDriveGeneratedTimeStampAndConfiguredPeriodTime(_, _, _) => 0x035
    case PvaStreamWithControllerGeneratedTimeStamp(_, _, _) => 0x03A
    case StopStream => 0x03F
    case VajiGoToPos(_, _, _, _, _) => 0x3A0
  }

  function Parameters(command: Command): (r: seq<i32>)
    ensures |r| <= 5
  {
    match command
    case NoOperation => []
    case VaiGoToPos(p, v, a, d) => [p, v, a, d]
    case VaiIncrementDemPos(p, v, a, d) => [p, v, a, d]
    case VaiGoToPosFromActPosAndActVel(p, v, a, d) => [p, v, a, d]
    case VaiStop(d) => [d]
    case PStreamWithDriveGeneratedTimeStamp(p) => [p]
    case PvStreamWithDriveGeneratedTimeStamp(p, v) => [p, v]
    case PStreamWithDriveGeneratedTimeStampAndConfiguredPeriodTime(p) => [p]
    case PvStreamWithDriveGeneratedTimeStampAndConfiguredPeriodTime(p, v) => [p, v]
    case PvaStreamWithDriveGeneratedTimeStamp(p, v, a) => [p, v, a]
    case PvaStreamWithDriveGeneratedTimeStampAndConfiguredPeriodTime(p, v, a) => [p, v, a]
    case PvaStreamWithControllerGeneratedTimeStamp(p, v, a) => [p, v, a]
    case StopStream => []
    case VajiGoToPos(p, v, a, d, j) => [p, v, a, d, j]
  }

  // The command of an identifier, its parameters taken from the front of the list.
  function CommandOf(id: nat, w: seq<i32>): Option<Command>
    requires |w| >= 5
  {
    match id
    case 0x000 => Some(NoOperation)
    case 0x010 => Some(VaiGoToPos(w[0], w[1], w[2], w[3]))
    case 0x011 => Some(VaiIncrementDemPos(w[0], w[1], w[2], w[3]))
    case 0x013 => Some(VaiGoToPosFromActPosAndActVel(w[0], w[1], w[2], w[3]))
    case 0x017 => Some(VaiStop(w[0]))
    case 0x030 => Some(PStreamWithDriveGeneratedTimeStamp(w[0]))
    case 0x031 => Some(PvStreamWithDriveGeneratedTimeStamp(w[0], w[1]))
    case 0x032 => Some(PStreamWithDriveGeneratedTimeStampAndConfiguredPeriodTime(w[0]))
    case 0x033 => Some(PvStreamWithDriveGeneratedTimeStampAndConfiguredPeriodTime(w[0], w[1]))
    case 0x034 => Some(PvaStreamWithDriveGeneratedTimeStamp(w[0], w[1], w[2]))
    case 0x035 => Some(PvaStreamWithDriveGeneratedTimeStampAndConfiguredPeriodTime(w[0], w[1], w[2]))
    case 0x03A => Some(PvaStreamWithControllerGeneratedTimeStamp(w[0], w[1], w[2]))
    case 0x03F => Some(StopStream)
    case 0x3A0 => Some(VajiGoToPos(w[0], w[1], w[2], w[3], w[4]))
    case _ => None
  }

  /** Identifier and parameters determine the command, whatever is read behind the parameters. */
  lemma CommandRecovered(command: Command, w: seq<i32>)
    requires |w| >= 5 && Parameters(command) <= w
    ensures CommandOf(Id(command), w) == Some(command)
  {
    assert forall i | 0 <= i < |Parameters(command)| :: w[i] == Parameters(command)[i];
  }

  datatype CountedCommand = CountedCommand(count: byte, command: Command)

  const BLOCK: nat := 32

  function EncodeWords(words: seq<i32>): (r: seq<byte>)
    ensures |r| == 4 * |words|
  {
    if words == [] then [] else LeI32(words[0]) + EncodeWords(words[1..])
  }

  function Header(c: CountedCommand): (h: nat)
    ensures h < 0x1_0000
  {
    Id(c.command) * 16 + c.count % 16
  }

  function Padding(n: nat): (r: seq<byte>)
    ensures |r| == n
  {
    seq(n, _ => 0 as byte)
  }

  function EncodeMotion(c: CountedCommand): (r: seq<byte>)
    ensures |r| == BLOCK
  {
    var words := EncodeWords(Parameters(c.command));
    Le(Header(c), 2) + words + Padding(BLOCK - 2 - |words|)
  }

  // The first n words of the bytes.
  function WordsIn(bytes: seq<byte>, n: nat): (r: seq<int>)
    requires 4 * n <= |bytes|
    ensures |r| == n
  {
    if n == 0 then [] else [I32From(bytes[..4])] + WordsIn(bytes[4..], n - 1)
  }

  lemma {:induction false} SignedFits(bytes: seq<byte>)
    requires |bytes| == 4
    ensures IsI32(I32From(bytes))
  {
    Sizes();
    FromLeBound(bytes);
  }

  lemma {:induction false} FromLeBound(bytes: seq<byte>)
    ensures FromLe(bytes) < Pow256(|bytes|)
  {
    if bytes != [] { FromLeBound(bytes[1..]); }
  }

  lemma {:induction false} WordsFit(bytes: seq<byte>, n: nat)
    requires 4 * n <= |bytes|
    ensures forall i | 0 <= i < n :: IsI32(WordsIn(bytes, n)[i])
  {
    if n > 0 {
      SignedFits(bytes[..4]);
      WordsFit(bytes[4..], n - 1);
    }
  }

  lemma {:induction false} WordsRoundTrip(words: seq<i32>, rest: seq<byte>, n: nat)
    requires |words| <= n && 4 * n <= 4 * |words| + |rest|
    ensures words <= WordsIn(EncodeWords(words) + rest, n)
  {
    if words != [] {
      var bytes, tail := EncodeWords(words) + rest, EncodeWords(words[1..]) + rest;
      assert bytes == LeI32(words[0]) + tail;
      assert bytes[..4] == LeI32(words[0]) && bytes[4..] == tail;
      I32RoundTrip(words[0]);
      WordsRoundTrip(words[1..], rest, n - 1);
      assert words == [words[0]] + words[1..];
    }
  }

  function DecodeMotion(bytes: seq<byte>): Option<CountedCommand>
    requires |bytes| == BLOCK
  {
    var header := FromLe(bytes[..2]);
    WordsFit(bytes[2..], 5);
    var command := CommandOf(header / 16, WordsIn(bytes[2..], 5));
    if command.Some? then Some(CountedCommand(header % 16, command.value)) else None
  }

  lemma MotionRoundTrip(c: CountedCommand)
    requires c.count <= 15
    ensures DecodeMotion(EncodeMotion(c)) == Some(c)
  {
    hide EncodeWords, WordsIn, CommandOf, Le, FromLe;
    var bytes, parameters := EncodeMotion(c), Parameters(c.command);
    var rest := EncodeWords(parameters) + Padding(BLOCK - 2 - 4 * |parameters|);
    assert bytes == Le(Header(c), 2) + rest;
    assert bytes[..2] == Le(Header(c), 2) && bytes[2..] == rest;
    Sizes();
    LeRoundTrip(Header(c), 2);
    WordsRoundTrip(parameters, Padding(BLOCK - 2 - 4 * |parameters|), 5);
    WordsFit(rest, 5);
    CommandRecovered(c.command, WordsIn(rest, 5));
  }

  // ----- requests -----

  datatype Realtime = Realtime(command: u16, param0: u16, param1: u16, param2: u16)

  datatype Request = Request(
    controlFlags: Option<u16>, motionCommand: Option<CountedCommand>, realtime: Option<Realtime>, responseFlags: u32)

  function RequestFlags(r: Request): (f: nat)
    ensures f < 8
  {
    (if r.controlFlags.Some? then 1 else 0)
    + (if r.motionCommand.Some? then 2 else 0)
    + (if r.realtime.Some? then 4 else 0)
  }

  function EncodeRealtime(c: Realtime): (r: seq<byte>)
    ensures |r| == 8
  {
    Le(c.command, 2) + Le(c.param0, 2) + Le(c.param1, 2) + Le(c.param2, 2)
  }

  function EncodeRequest(r: Request): seq<byte> {
    Le(RequestFlags(r), 4) + Le(r.responseFlags, 4)
    + (if r.controlFlags.Some? then Le(r.controlFlags.value, 2) else [])
    + (if r.motionCommand.Some? then EncodeMotion(r.motionCommand.value) else [])
    + (if r.realtime.Some? then EncodeRealtime(r.realtime.value) else [])
  }

  function DecodeRealtime(bytes: seq<byte>): Realtime
    requires |bytes| == 8
  {
    FromLeBound(bytes[..2]);
    FromLeBound(bytes[2..4]);
    FromLeBound(bytes[4..6]);
    FromLeBound(bytes[6..8]);
    Sizes();
    Realtime(FromLe(bytes[..2]), FromLe(bytes[2..4]), FromLe(bytes[4..6]), FromLe(bytes[6..8]))
  }

  lemma RealtimeRoundTrip(c: Realtime)
    ensures DecodeRealtime(EncodeRealtime(c)) == c
  {
    hide Le, FromLe;
    Sizes();
    LeRoundTrip(c.command, 2);
    LeRoundTrip(c.param0, 2);
    LeRoundTrip(c.param1, 2);
    LeRoundTrip(c.param2, 2);
    var bytes := EncodeRealtime(c);
    assert bytes[..2] == Le(c.command, 2) && bytes[2..4] == Le(c.param0, 2);
    assert bytes[4..6] == Le(c.param1, 2) && bytes[6..8] == Le(c.param2, 2);
  }

  // The bytes of an optional field, and where the next field begins.
  function Field(bytes: seq<byte>, at: nat, present: bool, size: nat): Option<seq<byte>>
    requires present ==> at + size <= |bytes|
  {
    if present then Some(bytes[at..at + size]) else None
  }

  function Skip(present: bool, size: nat): nat {
    if present then size else 0
  }

  // The drive's reading of a request.
  function ParseRequest(bytes: seq<byte>): Option<Request> {
    if |bytes| < 8 then None
    else
      var flags := FromLe(bytes[..4]);
      var control, motion, realtime := flags % 2 == 1, flags / 2 % 2 == 1, flags / 4 % 2 == 1;
      var motionAt := 8 + Skip(control, 2);
      var realtimeAt := motionAt + Skip(motion, BLOCK);
      if |bytes| < realtimeAt + Skip(realtime, 8) then None
      else
        var command := if motion then DecodeMotion(bytes[motionAt..motionAt + BLOCK]) else None;
        if motion && command.None? then None
        else
          FromLeBound(bytes[4..8]);
          Sizes();
          FromLeBound(bytes[8..8 + Skip(control, 2)]);
          Some(Request(
            if control then Some(FromLe(bytes[8..10])) else None,
            command,
            if realtime then Some(DecodeRealtime(bytes[realtimeAt..realtimeAt + 8])) else None,
            FromLe(bytes[4..8])))
  }

  /** A request is 8 bytes and 2, 32 and 8 for its parts, so that it always fits the 64-byte buffer. */
  lemma RequestLength(r: Request)
    ensures |EncodeRequest(r)|
         == 8 + Skip(r.controlFlags.Some?, 2) + Skip(r.motionCommand.Some?, BLOCK) + Skip(r.realtime.Some?, 8)
    ensures |EncodeRequest(r)| <= 50
  {
  }

  lemma Sliced(a: seq<byte>, b: seq<byte>, c: seq<byte>)
    ensures (a + b + c)[|a|..|a| + |b|] == b
  {
  }

  /** The drive recovers the request. */
  lemma RequestRoundTrip(r: Request)
    requires r.motionCommand.Some? ==> r.motionCommand.value.count <= 15
    ensures ParseRequest(EncodeRequest(r)) == Some(r)
  {
    hide Le, FromLe, EncodeMotion, DecodeMotion, EncodeRealtime, DecodeRealtime, RequestFlags;
    var bytes := EncodeRequest(r);
    var flags, response := Le(RequestFlags(r), 4), Le(r.responseFlags, 4);
    var control := if r.controlFlags.Some? then Le(r.controlFlags.value, 2) else [];
    var motion := if r.motionCommand.Some? then EncodeMotion(r.motionCommand.value) else [];
    var realtime := if r.realtime.Some? then EncodeRealtime(r.realtime.value) else [];
    assert bytes[..4] == flags && bytes[4..8] == response;
    Sliced(flags + response, control, motion + realtime);
    assert flags + response + control + (motion + realtime) == bytes;
    Sliced(flags + response + control, motion, realtime);
    Sliced(flags + response + control + motion, realtime, []);
    assert flags + response + control + motion + realtime + [] == bytes;
    Sizes();
    LeRoundTrip(RequestFlags(r), 4);
    LeRoundTrip(r.responseFlags, 4);
    FlagBits(r);
    if r.controlFlags.Some? { LeRoundTrip(r.controlFlags.value, 2); }
    if r.motionCommand.Some? { MotionRoundTrip(r.motionCommand.value); }
    if r.realtime.Some? { RealtimeRoundTrip(r.realtime.value); }
  }

  lemma FlagBits(r: Request)
    ensures RequestFlags(r) % 2 == 1 <==> r.controlFlags.Some?
    ensures RequestFlags(r) / 2 % 2 == 1 <==> r.motionCommand.Some?
    ensures RequestFlags(r) / 4 % 2 == 1 <==> r.realtime.Some?
  {
  }

  // ----- the cursors of the program -----

  datatype WriteError = Overflow(needed: nat, have: nat) | TooManyParameters(length: nat)

  /** A bounded writer over a buffer that was allocated before. */
  class Writer {
    const buf: array<byte>
    var idx: nat

    constructor (buf: array<byte>)
      ensures this.buf == buf && idx == 0
    {
      this.buf, idx := buf, 0;
    }

    predicate Valid()
      reads this
    {
      idx <= buf.Length
    }

    function Written(): seq<byte>
      requires Valid()
      reads this, buf
    {
      buf[..idx]
    }

    // All of the bytes, or an error and nothing.
    method WriteBytes(bytes: seq<byte>) returns (error: Option<WriteError>)
      requires Valid()
      modifies this`idx, buf
      ensures Valid() && buf[idx..] == old(buf[..])[idx..]
      ensures error.None? <==> old(idx) + |bytes| <= buf.Length
      ensures error.None? ==> Written() == old(Written()) + bytes
      ensures error.Some? ==> error == Some(Overflow(|bytes|, buf.Length - idx))
      ensures error.Some? ==> idx == old(idx) && Written() == old(Written())
    {
      if idx + |bytes| > buf.Length {
        return Some(Overflow(|bytes|, buf.Length - idx));
      }
      ghost var before := buf[..];
      for i := 0 to |bytes|
        modifies buf
        invariant buf[..] == before[..idx] + bytes[..i] + before[idx + i..]
      {
        buf[idx + i] := bytes[i];
      }
      idx := idx + |bytes|;
      return None;
    }

    // One word after the other, up to the first that does not fit.
    method WriteWords(words: seq<i32>) returns (error: Option<WriteError>)
      requires Valid()
      modifies this`idx, buf
      ensures Valid() && old(idx) <= idx
      ensures error.None? <==> old(idx) + 4 * |words| <= buf.Length
      ensures error.None? ==> Written() == old(Written()) + EncodeWords(words)
      ensures error.Some? ==> error.value.Overflow?
    {
      assert Written() + EncodeWords(words[0..]) == old(Written()) + EncodeWords(words) by { assert words[0..] == words; }
      for i := 0 to |words|
        invariant Valid() && idx == old(idx) + 4 * i
        invariant Written() + EncodeWords(words[i..]) == old(Written()) + EncodeWords(words)
      {
        assert EncodeWords(words[i..]) == LeI32(words[i]) + EncodeWords(words[i + 1..]) by {
          assert words[i..][1..] == words[i + 1..];
        }
        error := WriteBytes(LeI32(words[i]));
        if error.Some? {
          return;
        }
      }
      assert EncodeWords(words[|words|..]) == [];
      assert Written() + [] == Written();
      return None;
    }

    /**
      Header, parameters and zeros, a block of 32 bytes. The error for too many parameters is never
      returned.
     */
    method WriteMotion(c: CountedCommand) returns (error: Option<WriteError>)
      requires Valid()
      modifies this`idx, buf
      ensures Valid()
      ensures error.None? <==> old(idx) + BLOCK <= buf.Length
      ensures error.None? ==> Written() == old(Written()) + EncodeMotion(c)
      ensures error.Some? ==> error.value.Overflow?
    {
      hide EncodeWords, Le;
      var before := idx;
      error := WriteBytes(Le(Header(c), 2));
      if error.Some? {
        return;
      }
      ghost var head := Written();
      error := WriteWords(Parameters(c.command));
      if error.Some? {
        return;
      }
      var length := idx - before;
      // The longest command has five parameters, so that the error for too many cannot be reached.
      assert length <= BLOCK;
      ghost var words := EncodeWords(Parameters(c.command));
      assert Written() == head + words;
      if length < BLOCK {
        error := WriteBytes(Padding(BLOCK - length));
      }
    }

    method WriteRealtime(c: Realtime) returns (error: Option<WriteError>)
      requires Valid()
      modifies this`idx, buf
      ensures Valid()
      ensures error.None? <==> old(idx) + 8 <= buf.Length
      ensures error.None? ==> Written() == old(Written()) + EncodeRealtime(c)
      ensures error.Some? ==> error.value.Overflow?
    {
      hide Le;
      error := WriteBytes(Le(c.command, 2));
      if error.Some? { return; }
      error := WriteBytes(Le(c.param0, 2));
      if error.Some? { return; }
      error := WriteBytes(Le(c.param1, 2));
      if error.Some? { return; }
      error := WriteBytes(Le(c.param2, 2));
    }
  }

  /** Writes the request into the buffer, and fails exactly when the buffer is too small for it. */
  method ToWire(r: Request, out: array<byte>) returns (error: Option<WriteError>, length: nat)
    modifies out
    ensures error.None? <==> |EncodeRequest(r)| <= out.Length
    ensures error.None? ==> length == |EncodeRequest(r)| && out[..length] == EncodeRequest(r)
    ensures error.Some? ==> error.value.Overflow?
  {
    hide Le, EncodeMotion, EncodeRealtime, RequestFlags;
    RequestLength(r);
    length := 0;
    var w := new Writer(out);
    error := w.WriteBytes(Le(RequestFlags(r), 4));
    if error.Some? { return; }
    error := w.WriteBytes(Le(r.responseFlags, 4));
    if error.Some? { return; }
    ghost var head := Le(RequestFlags(r), 4) + Le(r.responseFlags, 4);
    assert w.Written() == head;
    if r.controlFlags.Some? {
      error := w.WriteBytes(Le(r.controlFlags.value, 2));
      if error.Some? { return; }
    }
    ghost var control := if r.controlFlags.Some? then Le(r.controlFlags.value, 2) else [];
    assert w.Written() == head + control;
    if r.motionCommand.Some? {
      error := w.WriteMotion(r.motionCommand.value);
      if error.Some? { return; }
    }
    ghost var motion := if r.motionCommand.Some? then EncodeMotion(r.motionCommand.value) else [];
    assert w.Written() == head + control + motion;
    if r.realtime.Some? {
      error := w.WriteRealtime(r.realtime.value);
      if error.Some? { return; }
    }
    length := w.idx;
  }

  // ----- responses -----

  datatype Response = Response(
    statusFlags: Option<nat>, rawState: Option<nat>, actualPosition: Option<int>, demandPosition: Option<int>,
    current: Option<int>, warningFlags: Option<nat>, rawErrorCode: Option<nat>,
    monitoring: Option<(nat, nat, nat, nat)>, realtime: Option<Realtime>)

  const FIELDS: nat := 9

  // The sizes of the fields, in their order.
  function FieldSize(i: nat): nat
    requires i < FIELDS
  {
    [2, 2, 4, 4, 2, 2, 2, 16, 8][i]
  }

  function Bit(flags: nat, i: nat): bool
    requires i < FIELDS
  {
    flags / [1, 2, 4, 8, 16, 32, 64, 128, 256][i] % 2 == 1
  }

  // The realtime configuration is there only if the request had it too.
  predicate Present(request: nat, response: nat, i: nat)
    requires i < FIELDS
  {
    Bit(response, i) && (i == 8 ==> Bit(request, 2))
  }

  // Where field i begins: behind the header and the fields before it that are there.
  function Offset(request: nat, response: nat, i: nat): nat
    requires i <= FIELDS
  {
    if i == 0 then 8
    else Offset(request, response, i - 1) + Skip(Present(request, response, i - 1), FieldSize(i - 1))
  }

  lemma {:induction false} OffsetMono(request: nat, response: nat, i: nat, j: nat)
    requires i <= j <= FIELDS
    ensures Offset(request, response, i) <= Offset(request, response, j)
  {
    if i < j { OffsetMono(request, response, i, j - 1); }
  }

  function FieldAt(bytes: seq<byte>, request: nat, response: nat, i: nat): (r: Option<seq<byte>>)
    requires i < FIELDS && Offset(request, response, FIELDS) <= |bytes|
    ensures r.Some? ==> |r.value| == FieldSize(i)
  {
    OffsetMono(request, response, i + 1, FIELDS);
    Field(bytes, Offset(request, response, i), Present(request, response, i), FieldSize(i))
  }

  function NumberOf(raw: Option<seq<byte>>): Option<nat> {
    if raw.Some? then Some(FromLe(raw.value)) else None
  }

  function SignedOf(raw: Option<seq<byte>>): Option<int> {
    if raw.Some? then Some(Signed(FromLe(raw.value), |raw.value|)) else None
  }

  function MonitoringOf(raw: Option<seq<byte>>): Option<(nat, nat, nat, nat)>
    requires raw.Some? ==> |raw.value| == 16
  {
    if raw.None? then None
    else
      var b := raw.value;
      Some((FromLe(b[..4]), FromLe(b[4..8]), FromLe(b[8..12]), FromLe(b[12..16])))
  }

  function RealtimeOf(raw: Option<seq<byte>>): Option<Realtime>
    requires raw.Some? ==> |raw.value| == 8
  {
    if raw.Some? then Some(DecodeRealtime(raw.value)) else None
  }

  function RequestBits(bytes: seq<byte>): nat
    requires 8 <= |bytes|
  {
    FromLe(bytes[..4])
  }

  function ResponseBits(bytes: seq<byte>): nat
    requires 8 <= |bytes|
  {
    FromLe(bytes[4..8])
  }

  // The buffer holds the header and every field that it announces.
  predicate HoldsResponse(bytes: seq<byte>) {
    8 <= |bytes| && Offset(RequestBits(bytes), ResponseBits(bytes), FIELDS) <= |bytes|
  }

  function ParseResponse(bytes: seq<byte>): Response
    requires HoldsResponse(bytes)
  {
    var q, p := RequestBits(bytes), ResponseBits(bytes);
    Response(
      NumberOf(FieldAt(bytes, q, p, 0)), NumberOf(FieldAt(bytes, q, p, 1)),
      SignedOf(FieldAt(bytes, q, p, 2)), SignedOf(FieldAt(bytes, q, p, 3)), SignedOf(FieldAt(bytes, q, p, 4)),
      NumberOf(FieldAt(bytes, q, p, 5)), NumberOf(FieldAt(bytes, q, p, 6)),
      MonitoringOf(FieldAt(bytes, q, p, 7)), RealtimeOf(FieldAt(bytes, q, p, 8)))
  }

  // ----- what the drive sends -----

  predicate Below(x: Option<nat>, bound: int) {
    x.Some? ==> x.value < bound
  }

  predicate FitsResponse(r: Response) {
    && Below(r.statusFlags, 0x1_0000) && Below(r.rawState, 0x1_0000)
    && Below(r.warningFlags, 0x1_0000) && Below(r.rawErrorCode, 0x1_0000)
    && (r.actualPosition.Some? ==> IsI32(r.actualPosition.value))
    && (r.demandPosition.Some? ==> IsI32(r.demandPosition.value))
    && (r.current.Some? ==> -0x8000 <= r.current.value < 0x8000)
    && (r.monitoring.Some? ==>
          var m := r.monitoring.value;
          m.0 < 0x1_0000_0000 && m.1 < 0x1_0000_0000 && m.2 < 0x1_0000_0000 && m.3 < 0x1_0000_0000)
  }

  function RawNumber(x: Option<nat>): Option<seq<byte>> {
    if x.Some? then Some(Le(x.value, 2)) else None
  }

  function RawSigned(x: Option<int>, n: nat): Option<seq<byte>>
    requires x.Some? ==> 0 <= Unsigned(x.value, n)
  {
    if x.Some? then Some(Le(Unsigned(x.value, n), n)) else None
  }

  function RawMonitoring(x: Option<(nat, nat, nat, nat)>): Option<seq<byte>> {
    if x.Some? then Some(Le(x.value.0, 4) + Le(x.value.1, 4) + Le(x.value.2, 4) + Le(x.value.3, 4)) else None
  }

  // The bytes of field i, if the response has it.
  function RawField(r: Response, i: nat): (raw: Option<seq<byte>>)
    requires FitsResponse(r) && i < FIELDS
    ensures raw.Some? ==> |raw.value| == FieldSize(i)
  {
    Sizes();
    match i
    case 0 => RawNumber(r.statusFlags)
    case 1 => RawNumber(r.rawState)
    case 2 => RawSigned(r.actualPosition, 4)
    case 3 => RawSigned(r.demandPosition, 4)
    case 4 => RawSigned(r.current, 2)
    case 5 => RawNumber(r.warningFlags)
    case 6 => RawNumber(r.rawErrorCode)
    case 7 => RawMonitoring(r.monitoring)
    case _ => if r.realtime.Some? then Some(EncodeRealtime(r.realtime.value)) else None
  }

  // The response has just the fields that the flags announce.
  predicate Announced(request: u32, response: u32, r: Response)
    requires FitsResponse(r)
  {
    forall i | 0 <= i < FIELDS :: RawField(r, i).Some? == Present(request, response, i)
  }

  function EncodeFields(request: u32, response: u32, r: Response, n: nat): (bytes: seq<byte>)
    requires FitsResponse(r) && Announced(request, response, r) && n <= FIELDS
    ensures |bytes| == Offset(request, response, n)
  {
    if n == 0 then Le(request, 4) + Le(response, 4)
    else
      assert RawField(r, n - 1).Some? == Present(request, response, n - 1);
      EncodeFields(request, response, r, n - 1)
      + (if RawField(r, n - 1).Some? then RawField(r, n - 1).value else [])
  }

  lemma {:induction false} FieldsBegin(request: u32, response: u32, r: Response, i: nat, n: nat)
    requires FitsResponse(r) && Announced(request, response, r) && i <= n <= FIELDS
    ensures EncodeFields(request, response, r, i) <= EncodeFields(request, response, r, n)
  {
    hide RawField, Announced;
    if i < n { FieldsBegin(request, response, r, i, n - 1); }
  }

  lemma FieldRecovered(request: u32, response: u32, r: Response, i: nat, rest: seq<byte>)
    requires FitsResponse(r) && Announced(request, response, r) && i < FIELDS
    ensures
      var bytes := EncodeFields(request, response, r, FIELDS) + rest;
      Offset(request, response, FIELDS) <= |bytes| && FieldAt(bytes, request, response, i) == RawField(r, i)
  {
    hide RawField, Present, FieldSize, FitsResponse;
    FieldsBegin(request, response, r, i + 1, FIELDS);
    OffsetMono(request, response, i + 1, FIELDS);
    var bytes := EncodeFields(request, response, r, FIELDS) + rest;
    var upTo := EncodeFields(request, response, r, i + 1);
    assert RawField(r, i).Some? == Present(request, response, i);
    assert bytes[..|upTo|] == upTo;
    if RawField(r, i).Some? {
      var at := Offset(request, response, i);
      assert bytes[at..|upTo|] == upTo[at..] == RawField(r, i).value;
    }
  }

  lemma NumberRecovered(x: Option<nat>)
    requires Below(x, 0x1_0000)
    ensures NumberOf(RawNumber(x)) == x
  {
    Sizes();
    if x.Some? { LeRoundTrip(x.value, 2); }
  }

  lemma SignedRecovered(x: Option<int>, n: nat)
    requires x.Some? ==> 0 <= 2 * x.value + Pow256(n) && 2 * x.value < Pow256(n)
    ensures SignedOf(RawSigned(x, n)) == x
  {
    if x.Some? { LeRoundTrip(Unsigned(x.value, n), n); }
  }

  lemma MonitoringRecovered(r: Response)
    requires FitsResponse(r)
    ensures MonitoringOf(RawField(r, 7)) == r.monitoring
  {
    hide Le, FromLe;
    Sizes();
    if r.monitoring.Some? {
      var m := r.monitoring.value;
      LeRoundTrip(m.0, 4);
      LeRoundTrip(m.1, 4);
      LeRoundTrip(m.2, 4);
      LeRoundTrip(m.3, 4);
      var b := RawField(r, 7).value;
      assert b[..4] == Le(m.0, 4) && b[4..8] == Le(m.1, 4) && b[8..12] == Le(m.2, 4) && b[12..16] == Le(m.3, 4);
    }
  }

  /** Reading inverts the drive's encoder, whatever follows in the buffer. */
  lemma ResponseRoundTrip(request: u32, response: u32, r: Response, rest: seq<byte>)
    requires FitsResponse(r) && Announced(request, response, r)
    ensures
      var bytes := EncodeFields(request, response, r, FIELDS) + rest;
      HoldsResponse(bytes) && ParseResponse(bytes) == r
  {
    hide Le, FromLe, FieldAt, Announced, Present, FieldSize, NumberOf, SignedOf, MonitoringOf;
    hide EncodeRealtime, DecodeRealtime;
    var bytes := EncodeFields(request, response, r, FIELDS) + rest;
    HeaderRecovered(request, response, r, rest);
    Sizes();
    FieldRecovered(request, response, r, 0, rest);
    FieldRecovered(request, response, r, 1, rest);
    FieldRecovered(request, response, r, 2, rest);
    FieldRecovered(request, response, r, 3, rest);
    FieldRecovered(request, response, r, 4, rest);
    FieldRecovered(request, response, r, 5, rest);
    FieldRecovered(request, response, r, 6, rest);
    FieldRecovered(request, response, r, 7, rest);
    FieldRecovered(request, response, r, 8, rest);
    NumberRecovered(r.statusFlags);
    NumberRecovered(r.rawState);
    NumberRecovered(r.warningFlags);
    NumberRecovered(r.rawErrorCode);
    SignedRecovered(r.actualPosition, 4);
    SignedRecovered(r.demandPosition, 4);
    SignedRecovered(r.current, 2);
    MonitoringRecovered(r);
    if r.realtime.Some? { RealtimeRoundTrip(r.realtime.value); }
  }

  lemma HeaderRecovered(request: u32, response: u32, r: Response, rest: seq<byte>)
    requires FitsResponse(r) && Announced(request, response, r)
    ensures
      var bytes := EncodeFields(request, response, r, FIELDS) + rest;
      8 <= |bytes| && RequestBits(bytes) == request && ResponseBits(bytes) == response
  {
    hide Le, FromLe, RawField, Announced;
    FieldsBegin(request, response, r, 0, FIELDS);
    var bytes, header := EncodeFields(request, response, r, FIELDS) + rest, EncodeFields(request, response, r, 0);
    OffsetMono(request, response, 0, FIELDS);
    assert header == Le(request, 4) + Le(response, 4);
    assert bytes[..8] == header;
    assert bytes[..4] == Le(request, 4) && bytes[4..8] == Le(response, 4);
    Sizes();
    LeRoundTrip(request, 4);
    LeRoundTrip(response, 4);
  }

  datatype ReadError = Underflow(needed: nat, have: nat)

  /** A bounded reader. */
  class Reader {
    const buf: seq<byte>
    var idx: nat

    constructor (buf: seq<byte>)
      ensures this.buf == buf && idx == 0
    {
      this.buf, idx := buf, 0;
    }

    predicate Valid()
      reads this
    {
      idx <= |buf|
    }

    method ReadBytes(n: nat) returns (bytes: Option<seq<byte>>, error: Option<ReadError>)
      requires Valid()
      modifies this`idx
      ensures Valid()
      ensures old(idx) + n <= |buf| ==>
        error.None? && idx == old(idx) + n && bytes == Some(buf[old(idx)..old(idx) + n])
      ensures |buf| < old(idx) + n ==>
        bytes.None? && idx == old(idx) && error == Some(Underflow(n, |buf| - idx))
    {
      if idx + n > |buf| {
        return None, Some(Underflow(n, |buf| - idx));
      }
      bytes, error := Some(buf[idx..idx + n]), None;
      idx := idx + n;
    }

    // The field, if the flags announce it.
    method ReadOpt(present: bool, size: nat) returns (raw: Option<seq<byte>>, error: Option<ReadError>)
      requires Valid()
      modifies this`idx
      ensures Valid()
      ensures error.None? <==> old(idx) + Skip(present, size) <= |buf|
      ensures error.None? ==> idx == old(idx) + Skip(present, size) && raw == Field(buf, old(idx), present, size)
    {
      if !present {
        return None, None;
      }
      raw, error := ReadBytes(size);
    }
  }

  // What has been read for field k.
  predicate ReadSoFar(buf: seq<byte>, request: nat, response: nat, k: nat, raw: Option<seq<byte>>) {
    && k < FIELDS
    && Offset(request, response, k + 1) <= |buf|
    && raw == Field(buf, Offset(request, response, k), Present(request, response, k), FieldSize(k))
  }

  // Reads the fields in their order. The raw fields stand for the converted ones until all are there.
  method ReadFields(rd: Reader, request: nat, response: nat)
    returns (raw: seq<Option<seq<byte>>>, error: Option<ReadError>)
    requires rd.idx == 8 <= |rd.buf|
    modifies rd`idx
    ensures error.None? <==> Offset(request, response, FIELDS) <= |rd.buf|
    ensures error.None? ==>
      |raw| == FIELDS && forall i | 0 <= i < FIELDS :: raw[i] == FieldAt(rd.buf, request, response, i)
  {
    hide Present, FieldSize;
    raw := [];
    for i := 0 to FIELDS
      invariant |raw| == i && rd.idx == Offset(request, response, i) <= |rd.buf|
      invariant forall k | 0 <= k < i :: ReadSoFar(rd.buf, request, response, k, raw[k])
    {
      OffsetMono(request, response, i + 1, FIELDS);
      var field, failed := rd.ReadOpt(Present(request, response, i), FieldSize(i));
      if failed.Some? {
        return raw, failed;
      }
      assert ReadSoFar(rd.buf, request, response, i, field);
      raw := raw + [field];
    }
    forall i | 0 <= i < FIELDS ensures raw[i] == FieldAt(rd.buf, request, response, i) {
      assert ReadSoFar(rd.buf, request, response, i, raw[i]);
    }
    error := None;
  }

  /** Succeeds exactly when the buffer holds every field that its flags announce. */
  method FromWire(buf: seq<byte>) returns (r: Option<Response>, error: Option<ReadError>)
    ensures error.None? <==> HoldsResponse(buf)
    ensures error.None? ==> r == Some(ParseResponse(buf))
    ensures error.Some? ==> r.None?
  {
    hide FromLe;
    r := None;
    var rd := new Reader(buf);
    var requestBytes, responseBytes;
    requestBytes, error := rd.ReadBytes(4);
    if error.Some? { return; }
    responseBytes, error := rd.ReadBytes(4);
    if error.Some? { return; }
    var request, response := FromLe(requestBytes.value), FromLe(responseBytes.value);
    assert request == RequestBits(buf) && response == ResponseBits(buf);
    var raw;
    raw, error := ReadFields(rd, request, response);
    if error.Some? { return; }
    r := Some(Response(
      NumberOf(raw[0]), NumberOf(raw[1]), SignedOf(raw[2]), SignedOf(raw[3]), SignedOf(raw[4]),
      NumberOf(raw[5]), NumberOf(raw[6]), MonitoringOf(raw[7]), RealtimeOf(raw[8])));
  }
}

/**
  From the controllers' messages to the bytes on the wire, for every request that the drive thread sends,
  and from the bytes of a response to the pass that is computed from it.
 */
module EndToEnd {
  import opened Base
  import opened Messages
  import opened Controller
  import opened Interleaving
  import opened MotionSafety
  import L = LinUdp
  import opened HidMessages

  function FlagBits(flags: set<ControlFlag>): (bits: nat)
    ensures bits < 0x1_0000
  {
    (if SwitchOn in flags then 0x0001 else 0)
    + (if ErrorAcknowledge in flags then 0x0080 else 0)
    + (if Home in flags then 0x0800 else 0)
  }

  // The request asks for every part of the response.
  const ALL_RESPONSE_FLAGS: nat := 0x1FF

  predicate WireReady(c: ControllerState) {
    c.next.Some? ==>
      var command := c.next.value.command;
      && c.next.value.count < 16 && IsI32(command.deceleration)
      && (command.VaiGoToPos? ==>
            IsI32(command.targetPosition) && IsI32(command.maximalVelocity) && IsI32(command.acceleration))
  }

  function WireCommand(command: DriveCommand): L.Command
    requires IsI32(command.deceleration)
    requires command.VaiGoToPos? ==>
      IsI32(command.targetPosition) && IsI32(command.maximalVelocity) && IsI32(command.acceleration)
  {
    match command
    case VaiGoToPos(p, v, a, d) => L.VaiGoToPos(p, v, a, d)
    case VaiStop(d) => L.VaiStop(d)
  }

  function WireRequest(c: ControllerState): L.Request
    requires WireReady(c)
  {
    L.Request(
      Some(FlagBits(c.flags)),
      if c.next.Some? then Some(L.CountedCommand(c.next.value.count, WireCommand(c.next.value.command))) else None,
      None,
      ALL_RESPONSE_FLAGS)
  }

  // The request says what the drive thread means: flags, number and command.
  predicate Carries(r: L.Request, c: ControllerState) {
    && r.controlFlags.Some?
    && (r.controlFlags.value / 0x0001 % 2 == 1 <==> SwitchOn in c.flags)
    && (r.controlFlags.value / 0x0080 % 2 == 1 <==> ErrorAcknowledge in c.flags)
    && (r.controlFlags.value / 0x0800 % 2 == 1 <==> Home in c.flags)
    && r.responseFlags == 0x1FF && r.realtime.None?
    && (r.motionCommand.Some? <==> c.next.Some?)
    && (c.next.Some? ==>
          var sent, meant := r.motionCommand.value, c.next.value;
          && sent.count == meant.count
          && (meant.command.VaiStop? ==>
                sent.command.VaiStop? && sent.command.deceleration == meant.command.deceleration)
          && (meant.command.VaiGoToPos? ==>
                && sent.command.VaiGoToPos?
                && sent.command.targetPosition == meant.command.targetPosition
                && sent.command.maximalVelocity == meant.command.maximalVelocity
                && sent.command.acceleration == meant.command.acceleration
                && sent.command.deceleration == meant.command.deceleration))
  }

  lemma OneRequestArrives(c: ControllerState)
    requires WireReady(c)
    ensures |L.EncodeRequest(WireRequest(c))| <= 64
    ensures L.ParseRequest(L.EncodeRequest(WireRequest(c))) == Some(WireRequest(c))
  {
    L.RequestRoundTrip(WireRequest(c));
    L.RequestLength(WireRequest(c));
  }

  lemma RequestCarries(c: ControllerState)
    requires WireReady(c)
    ensures Carries(WireRequest(c), c)
  {
  }

  /**
    Over every interleaving, the request about to be sent fits the drive's 64-byte buffer and the drive
    reads it as it was meant: a motion that it reads is within the limits, and it is asked to switch on
    only if power was enabled in the commands fetched last.
   */
  lemma EveryRequestArrives(settings: Settings, limits: SystemLimits, moves: seq<Move>)
    requires ValidSettings(settings) && ValidLimits(limits)
    requires AllEnabled(settings, InitialSystem(limits), moves)
    requires Run(settings, InitialSystem(limits), moves).phase == AtSend
    ensures
      var s := Run(settings, InitialSystem(limits), moves);
      && WireReady(s.drive)
      && |L.EncodeRequest(WireRequest(s.drive))| <= 64
      && L.ParseRequest(L.EncodeRequest(WireRequest(s.drive))) == Some(WireRequest(s.drive))
      && Carries(WireRequest(s.drive), s.drive)
      && (WireRequest(s.drive).controlFlags.value % 2 == 1 ==> s.drive.powerEnabled)
      && (s.drive.next.Some? && s.drive.next.value.command.VaiGoToPos? ==>
            var sent := WireRequest(s.drive).motionCommand.value.command;
            && sent.VaiGoToPos?
            && 0 <= sent.targetPosition <= limits.position
            && 0 <= sent.maximalVelocity <= limits.velocity
            && 0 <= sent.acceleration <= limits.acceleration)
  {
    var s := Run(settings, InitialSystem(limits), moves);
    SentIsWithinLimits(settings, limits, moves);
    RequestCarries(s.drive);
    OneRequestArrives(s.drive);
    hide Run, InitialSystem, AllEnabled, WireReady, WireRequest, FlagBits, L.EncodeRequest, L.ParseRequest;
  }

  lemma SentIsWithinLimits(settings: Settings, limits: SystemLimits, moves: seq<Move>)
    requires ValidSettings(settings) && ValidLimits(limits)
    requires AllEnabled(settings, InitialSystem(limits), moves)
    requires Run(settings, InitialSystem(limits), moves).phase == AtSend
    ensures
      var c := Run(settings, InitialSystem(limits), moves).drive;
      && WireReady(c)
      && (SwitchOn in c.flags ==> c.powerEnabled)
      && (c.next.Some? && c.next.value.command.VaiGoToPos? ==>
            var meant := c.next.value.command;
            && 0 <= meant.targetPosition <= limits.position
            && 0 <= meant.maximalVelocity <= limits.velocity
            && 0 <= meant.acceleration <= limits.acceleration)
  {
    var start := InitialSystem(limits);
    InvariantInitially(limits);
    LimitsHold(settings, start, moves);
    LimitsStay(settings, start, moves);
  }

  lemma {:induction false} LimitsStay(settings: Settings, s: System, moves: seq<Move>)
    requires ValidSettings(settings) && Invariant(s) && AllEnabled(settings, s, moves)
    ensures Run(settings, s, moves).core.limits == s.core.limits
    decreases |moves|
  {
    if moves != [] {
      if moves[0].CoreReceives? { SectionPublishes(s.core, moves[0].event); }
      InvariantStep(settings, s, moves[0]);
      LimitsStay(settings, Apply(settings, s, moves[0]), moves[1..]);
    }
  }

  // ----- the way back -----

  // What the controller looks at in a response: the monitoring channel carries velocity and acceleration.
  function Seen(r: L.Response): Response {
    Response(
      r.rawState, r.actualPosition, r.demandPosition,
      if r.monitoring.Some? then Some((WrapI32(r.monitoring.value.0), WrapI32(r.monitoring.value.1))) else None,
      r.current.Some? && r.warningFlags.Some? && r.rawErrorCode.Some? && r.monitoring.Some?)
  }

  lemma WrapFits(x: int)
    ensures IsI32(WrapI32(x))
  {
  }

  lemma WrapRestores(x: int)
    requires IsI32(x)
    ensures 0 <= L.Unsigned(x, 4) < 0x1_0000_0000 && WrapI32(L.Unsigned(x, 4)) == x
  {
    L.Sizes();
    if x < 0 { ModOnce(x - I32_MIN, 0x1_0000_0000); }
  }

  // The response of a drive that reports all of its state.
  function Report(state: nat, actual: int, demand: int, velocity: int, acceleration: int, current: int): L.Response
    requires IsI32(velocity) && IsI32(acceleration)
  {
    WrapRestores(velocity);
    WrapRestores(acceleration);
    L.Response(Some(0), Some(state), Some(actual), Some(demand), Some(current), Some(0), Some(0),
               Some((L.Unsigned(velocity, 4), L.Unsigned(acceleration, 4), 0, 0)), None)
  }

  /**
    The controller computes from the state, position, velocity and acceleration that the drive put into
    its response.
   */
  lemma FeedbackArrives(
    state: nat, actual: int, demand: int, velocity: int, acceleration: int, current: int,
    request: L.u32, rest: seq<byte>
  )
    requires state < 0x1_0000 && IsI32(actual) && IsI32(demand) && IsI32(velocity) && IsI32(acceleration)
    requires -0x8000 <= current < 0x8000 && !L.Bit(request, 2)
    ensures
      var r := Report(state, actual, demand, velocity, acceleration, current);
      && L.FitsResponse(r) && L.Announced(request, ALL_RESPONSE_FLAGS, r)
      && var bytes := L.EncodeFields(request, ALL_RESPONSE_FLAGS, r, L.FIELDS) + rest;
         && L.HoldsResponse(bytes)
         && Seen(L.ParseResponse(bytes))
            == Response(Some(state), Some(actual), Some(demand), Some((velocity, acceleration)), true)
  {
    hide L.EncodeFields, L.ParseResponse, L.HoldsResponse, L.Unsigned, WrapI32;
    var r := Report(state, actual, demand, velocity, acceleration, current);
    WrapRestores(velocity);
    WrapRestores(acceleration);
    AllAnnounced(request, r);
    L.ResponseRoundTrip(request, ALL_RESPONSE_FLAGS, r, rest);
  }

  /** The core gets feedback from complete responses only. Status flags and realtime configuration may be missing. */
  lemma FeedbackNeedsAll(c: ControllerState, r: L.Response)
    ensures FeedbackFrom(c, Seen(r)).Some?
      <==> && r.rawState.Some? && r.actualPosition.Some? && r.demandPosition.Some? && r.current.Some?
           && r.warningFlags.Some? && r.rawErrorCode.Some? && r.monitoring.Some?
  {
  }

  lemma AllAnnounced(request: L.u32, r: L.Response)
    requires L.FitsResponse(r) && !L.Bit(request, 2)
    requires forall i | 0 <= i < L.FIELDS :: L.RawField(r, i).Some? <==> i != 8
    ensures L.Announced(request, ALL_RESPONSE_FLAGS, r)
  {
    hide L.RawField;
    forall i | 0 <= i < L.FIELDS ensures L.RawField(r, i).Some? == L.Present(request, ALL_RESPONSE_FLAGS, i) {
      assert L.Bit(ALL_RESPONSE_FLAGS, i);
    }
  }

  lemma SignedFieldFits(bytes: seq<byte>, request: nat, response: nat, i: nat)
    requires (i == 2 || i == 3) && L.Offset(request, response, L.FIELDS) <= |bytes|
    ensures
      var value := L.SignedOf(L.FieldAt(bytes, request, response, i));
      value.Some? ==> IsI32(value.value)
  {
    var raw := L.FieldAt(bytes, request, response, i);
    if raw.Some? { L.SignedFits(raw.value); }
  }

  /** Whatever bytes arrive, a response that can be read gives the controller i32 values. */
  lemma FeedbackIsI32(bytes: seq<byte>)
    requires L.HoldsResponse(bytes)
    ensures
      var seen := Seen(L.ParseResponse(bytes));
      && (seen.actualPosition.Some? ==> IsI32(seen.actualPosition.value))
      && (seen.demandPosition.Some? ==> IsI32(seen.demandPosition.value))
      && (seen.demandVelocityAndAcceleration.Some? ==>
            IsI32(seen.demandVelocityAndAcceleration.value.0) && IsI32(seen.demandVelocityAndAcceleration.value.1))
  {
    hide L.FieldAt, L.SignedOf, L.NumberOf, L.Offset;
    var q, p := L.RequestBits(bytes), L.ResponseBits(bytes);
    SignedFieldFits(bytes, q, p, 2);
    SignedFieldFits(bytes, q, p, 3);
    var r := L.ParseResponse(bytes);
    if r.monitoring.Some? {
      WrapFits(r.monitoring.value.0);
      WrapFits(r.monitoring.value.1);
    }
  }

  /** So over a configured list no bytes from the drive make a pass overflow. */
  lemma NoBytesOverflow(settings: Settings, c: ControllerState, bytes: seq<byte>, limit: int)
    requires c.commands != [] && Configured(settings, c.commands, limit) && L.HoldsResponse(bytes)
    requires DemandIn(c.powerEnabled, Seen(L.ParseResponse(bytes))).Some?
    ensures
      var d := DemandIn(c.powerEnabled, Seen(L.ParseResponse(bytes))).value;
      ClampsFit(settings, c, d) && ArrivalFits(settings, c, d)
  {
    hide L.ParseResponse, L.HoldsResponse, ClampsFit, ArrivalFits, Configured;
    FeedbackIsI32(bytes);
    PassNeverOverflows(settings, c, DemandIn(c.powerEnabled, Seen(L.ParseResponse(bytes))).value, limit);
  }
}

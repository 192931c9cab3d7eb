/**
  What a pass of the drive loop does, in terms of the drive's status word, the interval and the list: the
  control flags, the arrival test, the command and the feedback.
 */
module ControllerLaws {
  import opened Base
  import opened Kinematics
  import opened Messages
  import opened Controller
  import opened ControllerRuns

  // ----- the status word -----

  predicate Answered(response: Response) {
    response.rawState.Some?
  }

  predicate NotReady(response: Response) {
    Answered(response) && response.rawState.value / 256 == 0
  }

  predicate ReadyToSwitchOn(response: Response) {
    Answered(response) && response.rawState.value / 256 == 2
  }

  predicate InErrorState(response: Response) {
    Answered(response) && response.rawState.value / 256 == 4
  }

  // Bit 7 of the operation enabled state says whether the drive knows its position.
  predicate Unhomed(response: Response) {
    Answered(response) && response.rawState.value / 256 == 8 && response.rawState.value % 256 < 0x80
  }

  predicate Homed(response: Response) {
    Answered(response) && response.rawState.value / 256 == 8 && 0x80 <= response.rawState.value % 256
  }

  predicate HomingDone(response: Response) {
    Answered(response) && response.rawState.value / 256 == 9 && response.rawState.value % 256 == 0xF
  }

  // ----- control flags -----

  // The flags start over: there is no state, the drive is not ready, or it is switched on.
  predicate StartsOver(powered: bool, response: Response) {
    !Answered(response) || NotReady(response) || (ReadyToSwitchOn(response) && powered)
  }

  lemma FlagsOfPass(settings: Settings, c: ControllerState, input: Input)
    ensures
      var flags := if Answered(input.response)
                   then FlagsAfter(Fetched(c, input).flags, Fetched(c, input).powerEnabled,
                                   StatusFrom(input.response.rawState.value))
                   else {};
      TickOn(settings, c, input).flags == flags
  {
    hide Reached, CommandFor, FlagsAfter;
  }

  /** The next request asks for power exactly if power is enabled and the drive is, or has been, ready for it. */
  lemma SwitchOnExactlyWhen(settings: Settings, c: ControllerState, input: Input)
    ensures SwitchOn in TickOn(settings, c, input).flags
      <==> && Fetched(c, input).powerEnabled && Answered(input.response) && !NotReady(input.response)
           && (ReadyToSwitchOn(input.response) || SwitchOn in c.flags)
  {
    FlagsOfPass(settings, c, input);
    hide TickOn;
  }

  /** It asks for homing from the first unhomed state until homing is done or the flags start over. */
  lemma HomeExactlyWhen(settings: Settings, c: ControllerState, input: Input)
    ensures Home in TickOn(settings, c, input).flags
      <==> && !StartsOver(Fetched(c, input).powerEnabled, input.response) && !HomingDone(input.response)
           && (Unhomed(input.response) || Home in c.flags)
  {
    FlagsOfPass(settings, c, input);
    hide TickOn;
  }

  /** It acknowledges errors from the action on until the flags start over. */
  lemma AcknowledgeExactlyWhen(settings: Settings, c: ControllerState, input: Input)
    ensures ErrorAcknowledge in TickOn(settings, c, input).flags
      <==> && !StartsOver(Fetched(c, input).powerEnabled, input.response)
           && (AckError in input.actions || ErrorAcknowledge in c.flags)
  {
    FlagsOfPass(settings, c, input);
    hide TickOn;
  }

  /** A drive that is ready is asked to switch on, and for nothing else: acknowledgement and homing end there. */
  lemma ReadyDriveIsSwitchedOn(settings: Settings, c: ControllerState, input: Input)
    requires Fetched(c, input).powerEnabled && ReadyToSwitchOn(input.response)
    ensures TickOn(settings, c, input).flags == {SwitchOn}
  {
    FlagsOfPass(settings, c, input);
  }

  /** Without a state, or with one that is not ready, nothing is asked. */
  lemma FlagsAreCleared(settings: Settings, c: ControllerState, input: Input)
    requires !Answered(input.response) || NotReady(input.response)
    ensures TickOn(settings, c, input).flags == {}
  {
    FlagsOfPass(settings, c, input);
  }

  // Passes with power, answers, and a drive that does not fall back.
  predicate AllPowered(settings: Settings, c: ControllerState, inputs: seq<Input>)
    decreases |inputs|
  {
    inputs != [] ==>
      && Fetched(c, inputs[0]).powerEnabled
      && Answered(inputs[0].response) && !NotReady(inputs[0].response)
      && AllPowered(settings, TickOn(settings, c, inputs[0]), inputs[1..])
  }

  /**
    Once a drive has been ready, every request asks for power until power goes off, the drive is not ready
    or there is no state.
   */
  lemma {:induction false} SwitchOnStays(settings: Settings, c: ControllerState, inputs: seq<Input>)
    requires AllPowered(settings, c, inputs)
    requires SwitchOn in c.flags || (inputs != [] && ReadyToSwitchOn(inputs[0].response))
    ensures SwitchOn in RunFrom(settings, c, inputs).flags
    decreases |inputs|
  {
    hide TickOn, ReadyToSwitchOn;
    if inputs != [] {
      SwitchOnExactlyWhen(settings, c, inputs[0]);
      SwitchOnStays(settings, TickOn(settings, c, inputs[0]), inputs[1..]);
    }
  }

  predicate AllHoming(settings: Settings, c: ControllerState, inputs: seq<Input>)
    decreases |inputs|
  {
    inputs != [] ==>
      && !StartsOver(Fetched(c, inputs[0]).powerEnabled, inputs[0].response) && !HomingDone(inputs[0].response)
      && AllHoming(settings, TickOn(settings, c, inputs[0]), inputs[1..])
  }

  /** From the first unhomed state every request asks for homing until it is done or the flags start over. */
  lemma {:induction false} HomeStays(settings: Settings, c: ControllerState, inputs: seq<Input>)
    requires AllHoming(settings, c, inputs)
    requires Home in c.flags || (inputs != [] && Unhomed(inputs[0].response))
    ensures Home in RunFrom(settings, c, inputs).flags
    decreases |inputs|
  {
    hide TickOn, StartsOver, HomingDone, Unhomed;
    if inputs != [] {
      HomeExactlyWhen(settings, c, inputs[0]);
      HomeStays(settings, TickOn(settings, c, inputs[0]), inputs[1..]);
    }
  }

  predicate NoneUnhomed(inputs: seq<Input>) {
    forall i | 0 <= i < |inputs| :: !Unhomed(inputs[i].response)
  }

  /** And after that none does until the drive is unhomed again. */
  lemma {:induction false} HomingEnds(settings: Settings, c: ControllerState, inputs: seq<Input>)
    requires Home !in c.flags && NoneUnhomed(inputs)
    ensures Home !in RunFrom(settings, c, inputs).flags
    decreases |inputs|
  {
    hide TickOn, StartsOver, HomingDone, Unhomed;
    if inputs != [] {
      HomeExactlyWhen(settings, c, inputs[0]);
      assert !Unhomed(inputs[0].response);
      HomingEnds(settings, TickOn(settings, c, inputs[0]), inputs[1..]);
    }
  }

  // ----- the command -----

  /** A command is computed exactly for a homed drive with power that reports its demands. */
  lemma CommandExactlyWhen(settings: Settings, c: ControllerState, input: Input)
    ensures TickOn(settings, c, input).next.Some?
      <==> && Fetched(c, input).powerEnabled && Homed(input.response)
           && input.response.demandPosition.Some? && input.response.demandVelocityAndAcceleration.Some?
  {
    hide Reached, CommandFor, FlagsAfter;
  }

  /**
    What it is: a stop with the smaller hard limit for an empty list; a stop while paused; else the motion
    of the list entry at the index that the pass leaves.
   */
  lemma CommandOfPass(settings: Settings, c: ControllerState, input: Input)
    requires TickOn(settings, c, input).next.Some?
    ensures
      var f, c' := Fetched(c, input), TickOn(settings, c, input);
      var command := c'.next.value.command;
      if f.commands == [] then command == VaiStop(settings.hardMin)
      else if !f.motionEnabled then command.VaiStop?
      else
        && c'.index < |f.commands| && command.VaiGoToPos?
        && command.targetPosition == f.commands[c'.index].position
        && command.maximalVelocity == f.commands[c'.index].velocity
        && command.acceleration == f.commands[c'.index].acceleration
  {
    hide Reached, FlagsAfter, ClampFor;
  }

  // The deceleration that a pass asks the clamp for, and the answer of the clamp, which is what it sends.
  lemma DecelerationOfPass(settings: Settings, c: ControllerState, input: Input)
    requires TickOn(settings, c, input).next.Some? && Fetched(c, input).commands != []
    ensures DemandAt(c, input).Some?
    ensures
      var f, d, c' := Fetched(c, input), DemandAt(c, input).value, TickOn(settings, c, input);
      var goal := ClampGoal(settings, f, d);
      c'.index < |f.commands|
      && c'.next.value.command.deceleration
         == ClampDeceleration(d.position, d.velocity, goal.target,
                              if f.motionEnabled then f.commands[c'.index].deceleration else settings.hardMin,
                              goal.direction, settings.overshootMargin, settings.hardMin, settings.hardMax)
  {
    hide Reached, FlagsAfter, ClampDeceleration;
  }

  // The waypoint that the clamp protects, and the direction it was approached in.
  function Protected(settings: Settings, f: ControllerState, d: Demand): Goal
    requires f.commands != []
  {
    var n, at := |f.commands|, f.index % |f.commands|;
    var ahead := f.commands[at].position - d.position;
    if Reached(settings, f, d) then CompletedGoal(f.commands, at)
    else if f.hasApproached || Toward(ahead, d.velocity, f.direction) || f.direction.None? || n == 1
      then Goal(f.commands[at].position, f.direction)
    else CompletedGoal(f.commands, (at + n - 1) % n)
  }

  lemma ClampProtects(settings: Settings, f: ControllerState, d: Demand, requested: int)
    requires f.commands != []
    ensures ClampFor(settings, d, ClampGoal(settings, f, d), requested)
         == ClampFor(settings, d, Protected(settings, f, d), requested)
  {
    hide Reached, ClampFor;
    NeighboursAround(CurrentIndex(f), |f.commands|);
    ZeroDirectionIsUnknown(settings, d, CurrentTarget(f), requested);
  }

  /**
    On a handoff the clamp protects the waypoint just completed, afterwards the same one until the drive is
    seen moving along the new leg, each in the direction of the leg that led to it; else the current target
    in the stored direction.
   */
  lemma ProtectedWaypoint(settings: Settings, c: ControllerState, input: Input)
    requires TickOn(settings, c, input).next.Some? && Fetched(c, input).commands != []
    ensures DemandAt(c, input).Some?
    ensures
      var f, d, c' := Fetched(c, input), DemandAt(c, input).value, TickOn(settings, c, input);
      c'.index < |f.commands|
      && c'.next.value.command.deceleration
         == ClampFor(settings, d, Protected(settings, f, d),
                     if f.motionEnabled then f.commands[c'.index].deceleration else settings.hardMin)
  {
    DecelerationOfPass(settings, c, input);
    hide TickOn, Protected, ClampDeceleration;
    var f, d, c' := Fetched(c, input), DemandAt(c, input).value, TickOn(settings, c, input);
    ClampProtects(settings, f, d, if f.motionEnabled then f.commands[c'.index].deceleration else settings.hardMin);
  }

  // ----- arrival -----

  // The direction of the leg to a waypoint: up, down, or none for a leg without length.
  lemma DirectionOfLeg(commands: seq<MotionCommand>, index: nat)
    requires index < |commands|
    ensures
      var previous := commands[(index + |commands| - 1) % |commands|].position;
      LegDirection(commands, index)
      == if commands[index].position > previous then Some(1)
         else if commands[index].position < previous then Some(-1) else None
  {
    NeighboursAround(index, |commands|);
  }

  // Whether the drive moves along the leg, or toward the target when the leg is unknown.
  predicate Toward(ahead: int, velocity: int, direction: Option<int>) {
    var heading := if direction.Some? && direction.value != 0 then direction.value else ahead;
    (heading > 0 && velocity > 0) || (heading < 0 && velocity < 0)
  }

  // A full-force stop ends before the margin is used up.
  predicate StopsInTime(settings: Settings, ahead: int, velocity: int) {
    settings.hardMax != 0
    && velocity * velocity <= 2 * settings.hardMax * (Abs(ahead) + Abs(settings.overshootMargin))
  }

  // When the waypoint counts as reached: exactly on it; seen on the way and now standing, turned away or
  // about to stop; or about to cross it, with a full-force stop in reach.
  predicate Arrives(settings: Settings, f: ControllerState, d: Demand)
    requires f.commands != []
  {
    var ahead := CurrentTarget(f) - d.position;
    var toward := Toward(ahead, d.velocity, f.direction);
    var approached := f.hasApproached || toward;
    || ahead == 0
    || (approached && (d.velocity == 0 || !toward))
    || (WillCross(settings, CurrentTarget(f), d) && StopsInTime(settings, ahead, d.velocity))
    || (approached && toward && StopsWithinThreeTicks(settings, d))
  }

  predicate StopsWithinThreeTicks(settings: Settings, d: Demand) {
    && ((d.velocity > 0 && d.acceleration < 0) || (d.velocity < 0 && d.acceleration > 0))
    && 100_000 * Abs(d.velocity) <= Abs(d.acceleration) * (3 * settings.intervalUs)
  }

  lemma ReachedExactlyWhen(settings: Settings, f: ControllerState, d: Demand)
    requires f.commands != []
    requires IsI32(RawVelocity(d.velocity, d.acceleration, 3 * settings.intervalUs))
    ensures Reached(settings, f, d) <==> Arrives(settings, f, d)
  {
    hide WillCross, WillStop;
    var ahead := CurrentTarget(f) - d.position;
    assert Toward(ahead, d.velocity, f.direction) == MovingToward(ahead, d.velocity, f.direction);
    StopIsWithinThreeTicks(settings, d);
    if ahead != 0 {
      assert CanRecover(Abs(ahead), d.velocity, settings.overshootMargin, settings.hardMax)
          == StopsInTime(settings, ahead, d.velocity);
    }
  }

  /** At constant speed: on it, left behind after an approach, or within three ticks of it and in time to stop. */
  lemma SteadyArrival(settings: Settings, f: ControllerState, d: Demand)
    requires f.commands != [] && d.acceleration == 0 && IsI32(d.velocity)
    requires IsI32(RawPosition(d.position, d.velocity, 0, 3 * settings.intervalUs))
    ensures
      var ahead := CurrentTarget(f) - d.position;
      var toward := Toward(ahead, d.velocity, f.direction);
      Reached(settings, f, d)
      <==> || ahead == 0
           || ((f.hasApproached || toward) && (d.velocity == 0 || !toward))
           || (&& ((ahead > 0 && d.velocity > 0) || (ahead < 0 && d.velocity < 0))
               && 100_000 * Abs(ahead) <= Abs(d.velocity) * (3 * settings.intervalUs)
               && StopsInTime(settings, ahead, d.velocity))
  {
    hide WillCross;
    assert RawVelocity(d.velocity, 0, 3 * settings.intervalUs) == d.velocity by {
      assert 0 * (3 * settings.intervalUs) == 0;
    }
    ReachedExactlyWhen(settings, f, d);
    CrossingIsWithinThreeTicks(settings, CurrentTarget(f), d);
  }

  /** The pass hands off to the next command around the list exactly when the waypoint counts as reached. */
  lemma HandsOffExactlyWhen(settings: Settings, c: ControllerState, input: Input)
    requires Fetched(c, input).commands != [] && DemandAt(c, input).Some?
    requires
      var d := DemandAt(c, input).value;
      IsI32(RawVelocity(d.velocity, d.acceleration, 3 * settings.intervalUs))
    ensures
      var f, d, c' := Fetched(c, input), DemandAt(c, input).value, TickOn(settings, c, input);
      var from := f.index % |f.commands|;
      if Arrives(settings, f, d) then
        && c'.index == (from + 1) % |f.commands| && !c'.hasApproached
        && c'.direction == LegDirection(f.commands, c'.index)
      else
        && c'.index == from && c'.direction == f.direction
        && c'.hasApproached == (f.hasApproached || Toward(f.commands[from].position - d.position, d.velocity, f.direction))
  {
    hide TickOn, Reached, Arrives;
    var f, d := Fetched(c, input), DemandAt(c, input).value;
    ReachedExactlyWhen(settings, f, d);
    TickSummary(settings, c, input);
    NeighboursAround(CurrentIndex(f), |f.commands|);
  }

  // ----- feedback -----

  /**
    The core is told of a complete response only: the drive is off when ready to switch on, in error, moving
    or paused, by the motion flag that the thread has, when homed, and preparing otherwise, with the index
    that the request just sent belongs to.
   */
  lemma FeedbackExactly(c: ControllerState, response: Response)
    ensures FeedbackFrom(c, response).Some?
      <==> && Answered(response) && response.actualPosition.Some? && response.demandPosition.Some?
           && response.demandVelocityAndAcceleration.Some? && response.telemetryComplete
    ensures
      var feedback := FeedbackFrom(c, response);
      feedback.Some? ==>
        && (feedback.value.driveState == Off <==> ReadyToSwitchOn(response))
        && (feedback.value.driveState == Errored <==> InErrorState(response))
        && (feedback.value.driveState == Moving <==> Homed(response) && c.motionEnabled)
        && (feedback.value.driveState == Paused <==> Homed(response) && !c.motionEnabled)
        && feedback.value.driveState != Disconnected
        && feedback.value.activeCommandIndex == c.index
        && feedback.value.actualPosition == response.actualPosition.value
        && feedback.value.demandPosition == response.demandPosition.value
  {
  }
}

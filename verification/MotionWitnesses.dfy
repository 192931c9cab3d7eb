/**
  Runs of the controller and the drive: some that meet the premises of MotionSafety, and one in which the
  program's own gate lets the drive pass the margin.
 */
module MotionWitnesses {
  import opened Base
  import opened Kinematics
  import opened Messages
  import opened Controller
  import opened ControllerRuns
  import opened ClosedLoop
  import opened MotionSafety

  // A pass that meets a homed drive, takes no action and does not get the lock.
  function Ready(position: int, velocity: int): Input {
    Input({}, None, Controller.Response(Some(0x0881), Some(position), Some(position), Some((velocity, 0)), true))
  }

  lemma ReadyMeans(c: ControllerState, position: int, velocity: int)
    requires c.powerEnabled && c.motionEnabled
    ensures Fetched(c, Ready(position, velocity)) == c.(next := None)
    ensures DemandAt(c, Ready(position, velocity)) == Some(Controller.Demand(1, position, velocity, 0))
  {
  }

  // On the way to the second of two waypoints, with a command about to be sent.
  function Underway(commands: seq<MotionCommand>): ControllerState
    requires |commands| == 2
  {
    var command := commands[1];
    ControllerState({SwitchOn},
                    Some(CountedCommand(0, VaiGoToPos(command.position, command.velocity, command.acceleration,
                                                      command.deceleration))),
                    true, true, 1, true, Some(1), commands)
  }

  const TUNING: Settings := Settings(3_000, 50, 10_000, 1_000_000)

  const STROKE: seq<MotionCommand> := [MotionCommand(0, 1_000, 1_000, 10), MotionCommand(1_000, 1_000, 1_000, 10)]

  // Slowing down on that way, and being handed off at its end, behind which the drive then stops.
  const SLOWING: seq<Input> := [Ready(0, 100), Ready(100, 80)]
  const HANDED_OFF: seq<Input> := [Ready(999, 20), Ready(1_004, 0)]

  lemma SlowPass(c: ControllerState, position: int, velocity: int)
    requires Approaching(c, 1) && c.commands == STROKE && c.direction == Some(1)
    requires (position == 0 && velocity == 100) || (position == 100 && velocity == 80)
    ensures !Reached(TUNING, c, Controller.Demand(1, position, velocity, 0))
  {
  }

  /**
    The premises of ApproachNeverOvershoots can be met, with the shortest queue: a drive slows down on its
    way.
   */
  lemma AnApproach()
    ensures
      var c := Underway(STROKE);
      && Approaching(c, 1) && AllApproach(TUNING, c, SLOWING)
      && Driven(TUNING, c, SLOWING, true, Queued([], c))
      && GoodStart(ApproachLeg(TUNING, c, 1), true, SampleAt(c, SLOWING[0]))
      && Suffices(Queued([], c), ApproachLeg(TUNING, c, 1), true, SampleAt(c, SLOWING[0]))
  {
    hide FlagsAfter, Reached;
    var c := Underway(STROKE);
    ReadyMeans(c, 0, 100);
    SlowPass(Fetched(c, SLOWING[0]), 0, 100);
    var c' := TickOn(TUNING, c, SLOWING[0]);
    ApproachingStep(TUNING, c, SLOWING[0], 1);
    PassSends(TUNING, c, SLOWING[0]);
    assert c'.powerEnabled && c'.motionEnabled && c'.commands == STROKE && c'.direction == Some(1);
    ReadyMeans(c', 100, 80);
    SlowPass(Fetched(c', SLOWING[1]), 100, 80);
    PassSends(TUNING, c', SLOWING[1]);
    assert SLOWING[1..] == [SLOWING[1]] && SLOWING[1..][1..] == [];
    assert AllApproach(TUNING, TickOn(TUNING, c', SLOWING[1]), []);
    assert AllApproach(TUNING, c', SLOWING[1..]);
  }

  lemma CrossingPass(c: ControllerState)
    requires Approaching(c, 1) && c.commands == STROKE && c.direction == Some(1)
    ensures Reached(TUNING, c, Controller.Demand(1, 999, 20, 0))
  {
  }

  lemma StandingPass(c: ControllerState)
    requires Awaiting(c, 1) && c.commands == STROKE
    ensures !Reached(TUNING, c, Controller.Demand(1, 1_004, 0, 0))
  {
  }

  /** So can those of HandoffNeverOvershoots: a drive is handed off early and stops behind the waypoint. */
  lemma AHandoff()
    ensures
      var c := Underway(STROKE);
      && Driven(TUNING, c, HANDED_OFF, true, Queued([], c))
      && Fetched(c, HANDED_OFF[0]).commands == STROKE && CurrentIndex(Fetched(c, HANDED_OFF[0])) == 1
      && Reached(TUNING, Fetched(c, HANDED_OFF[0]), DemandAt(c, HANDED_OFF[0]).value)
      && TickOn(TUNING, c, HANDED_OFF[0]).direction.Some?
      && AllAwait(TUNING, TickOn(TUNING, c, HANDED_OFF[0]), HANDED_OFF[1..])
      && GoodStart(AwaitedLeg(TUNING, Fetched(c, HANDED_OFF[0]), 1), true, SampleAt(c, HANDED_OFF[0]))
      && Suffices(Queued([], c), AwaitedLeg(TUNING, Fetched(c, HANDED_OFF[0]), 1), true, SampleAt(c, HANDED_OFF[0]))
  {
    hide FlagsAfter, Reached;
    var c := Underway(STROKE);
    ReadyMeans(c, 999, 20);
    CrossingPass(Fetched(c, HANDED_OFF[0]));
    TickSummary(TUNING, c, HANDED_OFF[0]);
    var c' := TickOn(TUNING, c, HANDED_OFF[0]);
    HandoffPass(TUNING, c, HANDED_OFF[0]);
    PassSends(TUNING, c, HANDED_OFF[0]);
    ReadyMeans(c', 1_004, 0);
    StandingPass(Fetched(c', HANDED_OFF[1]));
    PassSends(TUNING, c', HANDED_OFF[1]);
    assert HANDED_OFF[1..] == [HANDED_OFF[1]] && HANDED_OFF[1..][1..] == [];
    assert StillAwaits(TUNING, c', HANDED_OFF[1]);
    assert AllAwait(TUNING, TickOn(TUNING, c', HANDED_OFF[1]), []);
    assert AllAwait(TUNING, c', HANDED_OFF[1..]);
  }

  // ----- a journey -----

  const LEGS: seq<MotionCommand> := [MotionCommand(0, 1_000, 1_000, 5), MotionCommand(1_000, 1_000, 1_000, 10)]

  // At rest on the first waypoint, on the way to the second one, handed off there, at rest behind it, and on
  // the way back.
  const TRIP: seq<Input> :=
    [Ready(0, 0), Ready(10, 100), Ready(110, 80), Ready(999, 20), Ready(1_004, 0), Ready(990, -30), Ready(980, -28)]

  const TRIP_UPS: seq<bool> := [false, true, true, true, true, false, false]

  predicate Under(c: ControllerState) {
    c.powerEnabled && c.motionEnabled && c.commands == LEGS
  }

  lemma TripPass(c: ControllerState, position: int, velocity: int)
    requires Under(c)
    ensures Moves(c, Ready(position, velocity))
    ensures SampleAt(c, Ready(position, velocity)) == Sample(position, velocity)
    ensures
      var c' := TickOn(TUNING, c, Ready(position, velocity));
      && Under(c') && c'.next.Some?
      && c'.next.value.command.deceleration
         == ClosedLoop.Demand(PassLeg(TUNING, c, Ready(position, velocity)), Sample(position, velocity))
  {
    hide PassLeg, FlagsAfter, ClosedLoop.Demand, Reached, CommandFor;
    ReadyMeans(c, position, velocity);
    PassSends(TUNING, c, Ready(position, velocity));
  }

  lemma RestingAwaits(c: ControllerState, w: nat, position: int)
    requires Under(c) && Awaiting(c, w) && IsI32(position)
    requires position != LEGS[c.index].position
    ensures StillAwaits(TUNING, c, Ready(position, 0))
    ensures Awaiting(TickOn(TUNING, c, Ready(position, 0)), w)
    ensures TickOn(TUNING, c, Ready(position, 0)).direction == c.direction
    ensures PassLeg(TUNING, c, Ready(position, 0)) == AwaitedLeg(TUNING, c, w)
  {
    hide FlagsAfter, ClosedLoop.Demand, CommandFor, CanRecover, PassLeg, AwaitedLeg;
    ReadyMeans(c, position, 0);
    assert PredictPosition(position, 0, 0, Horizon(TUNING)) == position by { assert 0 * Horizon(TUNING) == 0; }
    AwaitingStep(TUNING, c, Ready(position, 0), w);
    AwaitingPass(TUNING, c, Ready(position, 0), w);
    AwaitedDirection(TUNING, c, Ready(position, 0), w);
  }

  lemma SetsOut(c: ControllerState, w: nat, position: int, velocity: int)
    requires Under(c) && Awaiting(c, w)
    requires (w == 0 && position == 10 && velocity == 100) || (w == 1 && position == 990 && velocity == -30)
    ensures
      var c' := TickOn(TUNING, c, Ready(position, velocity));
      && Approaching(c', 1 - w) && c'.direction == c.direction
      && PassLeg(TUNING, c, Ready(position, velocity)) == ApproachLeg(TUNING, c, 1 - w)
  {
    hide FlagsAfter, ClosedLoop.Demand, CommandFor, CanRecover, PassLeg;
    ReadyMeans(c, position, velocity);
    NewLegPass(TUNING, c, Ready(position, velocity), w);
  }

  lemma GoesOn(c: ControllerState, w: nat, position: int, velocity: int)
    requires Under(c) && Approaching(c, w) && w < 2 && c.direction == Some(if w == 1 then 1 else -1)
    requires (w == 1 && position == 110 && velocity == 80) || (w == 0 && position == 980 && velocity == -28)
    ensures
      var c' := TickOn(TUNING, c, Ready(position, velocity));
      && Approaching(c', w) && c'.direction == c.direction
      && PassLeg(TUNING, c, Ready(position, velocity)) == ApproachLeg(TUNING, c, w)
  {
    hide FlagsAfter, ClosedLoop.Demand, CommandFor, CanRecover, PassLeg;
    ReadyMeans(c, position, velocity);
    assert StillApproaches(TUNING, c, Ready(position, velocity));
    ApproachingStep(TUNING, c, Ready(position, velocity), w);
  }

  lemma HandsOff(c: ControllerState)
    requires Under(c) && Approaching(c, 1) && c.direction == Some(1)
    ensures
      var c' := TickOn(TUNING, c, Ready(999, 20));
      && Awaiting(c', 1) && PassLeg(TUNING, c, Ready(999, 20)) == AwaitedLeg(TUNING, c, 1)
  {
    hide FlagsAfter, ClosedLoop.Demand, CommandFor, PassLeg;
    ReadyMeans(c, 999, 20);
    assert Reached(TUNING, Fetched(c, Ready(999, 20)), DemandAt(c, Ready(999, 20)).value);
    TickSummary(TUNING, c, Ready(999, 20));
    HandoffPass(TUNING, c, Ready(999, 20));
  }

  // The demands along the way, and that every leg starts well.
  lemma TripAnswers(c: ControllerState)
    requires c.commands == LEGS
    ensures
      && var leg := AwaitedLeg(TUNING, c, 0);
         ClosedLoop.Demand(leg, Sample(0, 0)) == 10 && GoodStart(leg, false, Sample(0, 0))
    ensures
      && var leg := AwaitedLeg(TUNING, c, 1);
         ClosedLoop.Demand(leg, Sample(999, 20)) == ClosedLoop.Demand(leg, Sample(1_004, 0)) == 5
         && GoodStart(leg, true, Sample(999, 20))
    ensures c.direction == Some(1) ==>
      var leg := ApproachLeg(TUNING, c, 1);
      ClosedLoop.Demand(leg, Sample(10, 100)) == ClosedLoop.Demand(leg, Sample(110, 80)) == 10
      && GoodStart(leg, true, Sample(10, 100))
    ensures c.direction == Some(-1) ==>
      var leg := ApproachLeg(TUNING, c, 0);
      ClosedLoop.Demand(leg, Sample(990, -30)) == 5 && GoodStart(leg, false, Sample(990, -30))
  {
  }

  lemma FromPass(c: ControllerState, i: nat, queue: seq<int>, queue': seq<int>)
    requires i + 1 < |TRIP|
    requires Moves(c, TRIP[i]) && Moves(TickOn(TUNING, c, TRIP[i]), TRIP[i + 1])
    requires Continues(TUNING, c, TRIP[i], TRIP[i + 1], TRIP_UPS[i], TRIP_UPS[i + 1], queue)
    requires queue' == Queued(queue, TickOn(TUNING, c, TRIP[i]))[1..]
    requires Journey(TUNING, TickOn(TUNING, c, TRIP[i]), TRIP[i + 1..], TRIP_UPS[i + 1..], queue')
    ensures Journey(TUNING, c, TRIP[i..], TRIP_UPS[i..], queue)
  {
    hide TickOn, Moves, Continues;
    assert TRIP[i..][0] == TRIP[i] && TRIP[i..][1] == TRIP[i + 1] && TRIP[i..][1..] == TRIP[i + 1..];
    assert TRIP_UPS[i..][0] == TRIP_UPS[i] && TRIP_UPS[i..][1] == TRIP_UPS[i + 1];
    assert TRIP_UPS[i..][1..] == TRIP_UPS[i + 1..];
  }

  lemma LastPass(c: ControllerState, queue: seq<int>)
    requires Under(c)
    ensures Journey(TUNING, c, TRIP[6..], TRIP_UPS[6..], queue)
  {
    TripPass(c, 980, -28);
  }

  lemma FromSixthPass(c: ControllerState)
    requires Under(c) && Awaiting(c, 1) && c.direction == Some(-1)
    ensures Journey(TUNING, c, TRIP[5..], TRIP_UPS[5..], [5])
    ensures Moves(c, TRIP[5]) && SampleAt(c, TRIP[5]) == Sample(990, -30)
    ensures PassLeg(TUNING, c, TRIP[5]) == ApproachLeg(TUNING, c, 0)
  {
    hide TickOn, ClosedLoop.Demand, PassLeg, ApproachLeg, GoodStart, Moves, Journey;
    var c' := TickOn(TUNING, c, TRIP[5]);
    TripPass(c, 990, -30);
    SetsOut(c, 1, 990, -30);
    TripAnswers(c);
    TripPass(c', 980, -28);
    GoesOn(c', 0, 980, -28);
    SameApproach(c, c', 0);
    LastPass(c', [5]);
    FromPass(c, 5, [5], [5]);
  }

  lemma FromFifthPass(c: ControllerState)
    requires Under(c) && Awaiting(c, 1) && c.direction == Some(-1)
    ensures Journey(TUNING, c, TRIP[4..], TRIP_UPS[4..], [5])
    ensures Moves(c, TRIP[4]) && SampleAt(c, TRIP[4]) == Sample(1_004, 0)
    ensures PassLeg(TUNING, c, TRIP[4]) == AwaitedLeg(TUNING, c, 1)
  {
    hide TickOn, ClosedLoop.Demand, PassLeg, AwaitedLeg, ApproachLeg, GoodStart, Moves, Journey, StillAwaits;
    var c' := TickOn(TUNING, c, TRIP[4]);
    TripPass(c, 1_004, 0);
    RestingAwaits(c, 1, 1_004);
    TripAnswers(c);
    TripPass(c', 990, -30);
    TripAnswers(c');
    FromSixthPass(c');
    FromPass(c, 4, [5], [5]);
  }

  lemma FromFourthPass(c: ControllerState)
    requires Under(c) && Approaching(c, 1) && c.direction == Some(1)
    ensures Journey(TUNING, c, TRIP[3..], TRIP_UPS[3..], [10])
    ensures Moves(c, TRIP[3]) && SampleAt(c, TRIP[3]) == Sample(999, 20)
    ensures PassLeg(TUNING, c, TRIP[3]) == AwaitedLeg(TUNING, c, 1)
  {
    hide TickOn, ClosedLoop.Demand, PassLeg, AwaitedLeg, GoodStart, Moves, Journey;
    var c' := TickOn(TUNING, c, TRIP[3]);
    TripPass(c, 999, 20);
    HandsOff(c);
    TripAnswers(c);
    SameAwaited(c, c', 1);
    TripPass(c', 1_004, 0);
    FromFifthPass(c');
    FromPass(c, 3, [10], [5]);
  }

  lemma FromThirdPass(c: ControllerState)
    requires Under(c) && Approaching(c, 1) && c.direction == Some(1)
    ensures Journey(TUNING, c, TRIP[2..], TRIP_UPS[2..], [10])
    ensures Moves(c, TRIP[2]) && SampleAt(c, TRIP[2]) == Sample(110, 80)
    ensures PassLeg(TUNING, c, TRIP[2]) == ApproachLeg(TUNING, c, 1)
  {
    hide TickOn, ClosedLoop.Demand, PassLeg, AwaitedLeg, ApproachLeg, GoodStart, Moves, Journey;
    var c' := TickOn(TUNING, c, TRIP[2]);
    TripPass(c, 110, 80);
    GoesOn(c, 1, 110, 80);
    TripAnswers(c);
    TripPass(c', 999, 20);
    TripAnswers(c');
    FromFourthPass(c');
    FromPass(c, 2, [10], [10]);
  }

  lemma FromSecondPass(c: ControllerState)
    requires Under(c) && Awaiting(c, 0) && c.direction == Some(1)
    ensures Journey(TUNING, c, TRIP[1..], TRIP_UPS[1..], [10])
    ensures Moves(c, TRIP[1]) && SampleAt(c, TRIP[1]) == Sample(10, 100)
    ensures PassLeg(TUNING, c, TRIP[1]) == ApproachLeg(TUNING, c, 1)
  {
    hide TickOn, ClosedLoop.Demand, PassLeg, ApproachLeg, GoodStart, Moves, Journey;
    var c' := TickOn(TUNING, c, TRIP[1]);
    TripPass(c, 10, 100);
    SetsOut(c, 0, 10, 100);
    TripAnswers(c);
    SameApproach(c, c', 1);
    TripPass(c', 110, 80);
    FromThirdPass(c');
    FromPass(c, 1, [10], [10]);
  }

  /** A journey from rest, over an approach, a handoff and the next approach, with the shortest queue. */
  lemma AJourney()
    ensures
      var c := Underway(LEGS).(hasApproached := false);
      && Journey(TUNING, c, TRIP, TRIP_UPS, Queued([], c))
      && Moves(c, TRIP[0])
      && StartsWell(PassLeg(TUNING, c, TRIP[0]), false, Queued([], c), SampleAt(c, TRIP[0]))
  {
    hide TickOn, ClosedLoop.Demand, PassLeg, AwaitedLeg, ApproachLeg, GoodStart, Moves, Journey, StillAwaits;
    var c := Underway(LEGS).(hasApproached := false);
    var c' := TickOn(TUNING, c, TRIP[0]);
    TripPass(c, 0, 0);
    RestingAwaits(c, 0, 0);
    TripAnswers(c);
    TripPass(c', 10, 100);
    TripAnswers(c');
    FromSecondPass(c');
    assert Queued([], c) == [10];
    FromPass(c, 0, [10], [10]);
    assert TRIP[0..] == TRIP && TRIP_UPS[0..] == TRIP_UPS;
  }

  lemma SameApproach(c: ControllerState, c': ControllerState, w: nat)
    requires c.commands == c'.commands && w < |c.commands| && c.direction == c'.direction
    ensures ApproachLeg(TUNING, c, w) == ApproachLeg(TUNING, c', w)
  {
  }

  lemma SameAwaited(c: ControllerState, c': ControllerState, w: nat)
    requires c.commands == c'.commands && w < |c.commands|
    ensures AwaitedLeg(TUNING, c, w) == AwaitedLeg(TUNING, c', w)
  {
  }

  // ----- a handoff that the gate should not grant -----

  const WEAK_NEXT: seq<MotionCommand> :=
    [MotionCommand(0, 1_000_000, 50_000, 1), MotionCommand(1_000_000, 1_000_000, 50_000, 1_500_000)]

  const RUNAWAY: seq<Input> :=
    [Ready(999_999, 380_000), Ready(1_000_000, 379_996), Ready(1_000_010, 318_507), Ready(1_050_001, 318_506)]

  lemma GrantedPass()
    ensures
      var c, d := Underway(WEAK_NEXT).(next := None), Controller.Demand(1, 999_999, 380_000, 0);
      CanRecover(1, 380_000, DEFAULTS.overshootMargin, DEFAULTS.hardMax) && Reached(DEFAULTS, c, d)
  {
  }

  lemma PredictionAhead(position: int, velocity: int)
    requires 0 < position < 2_000_000 && 0 < velocity < 2_000_000
    ensures 0 < PredictPosition(position, velocity, 0, Horizon(DEFAULTS))
  {
    hide WrapI32;
    var travel := velocity * 6_000 * 10;
    assert 0 <= travel <= 120_000_000_000;
    assert RawPosition(position, velocity, 0, 6_000) == position + travel / 1_000_000;
    WrapKeeps(position + travel / 1_000_000);
  }

  lemma RunawayPass(c: ControllerState, position: int, velocity: int)
    requires Awaiting(c, 1) && c.commands == WEAK_NEXT && c.powerEnabled && c.motionEnabled
    requires 0 < position < 2_000_000 && 0 < velocity < 2_000_000
    ensures DemandAt(c, Ready(position, velocity)).Some? && StillAwaits(DEFAULTS, c, Ready(position, velocity))
    ensures SampleAt(c, Ready(position, velocity)) == Sample(position, velocity)
    ensures Fetched(c, Ready(position, velocity)).motionEnabled
    ensures
      var c' := TickOn(DEFAULTS, c, Ready(position, velocity));
      && Awaiting(c', 1) && c'.commands == WEAK_NEXT && c'.powerEnabled && c'.motionEnabled && c'.next.Some?
      && c'.next.value.command.deceleration
         == ClosedLoop.Demand(AwaitedLeg(DEFAULTS, c, 1), Sample(position, velocity))
  {
    hide PassLeg, AwaitedLeg, FlagsAfter, CanRecover, PredictPosition, WillStop, ClosedLoop.Demand;
    var input := Ready(position, velocity);
    ReadyMeans(c, position, velocity);
    PredictionAhead(position, velocity);
    assert StillAwaits(DEFAULTS, c, input);
    AwaitingStep(DEFAULTS, c, input, 1);
    AwaitingPass(DEFAULTS, c, input, 1);
    PassSends(DEFAULTS, c, input);
  }

  lemma WeakAnswers(c: ControllerState)
    requires c.commands == WEAK_NEXT
    ensures
      var leg := AwaitedLeg(DEFAULTS, c, 1);
      && ClosedLoop.Demand(leg, Sample(999_999, 380_000)) == I32_MAX
      && ClosedLoop.Demand(leg, Sample(1_000_000, 379_996)) == 1
      && !GoodStart(leg, true, Sample(999_999, 380_000))
  {
  }

  lemma GrantedStart()
    ensures
      var c, s := Underway(WEAK_NEXT), Sample(999_999, 380_000);
      && GoodStart(ApproachLeg(DEFAULTS, c, 1), true, s)
      && Suffices(Queued([], c), ApproachLeg(DEFAULTS, c, 1), true, s)
  {
  }

  lemma GrantedTick()
    ensures
      var c' := TickOn(DEFAULTS, Underway(WEAK_NEXT), RUNAWAY[0]);
      && Awaiting(c', 1) && c'.commands == WEAK_NEXT && c'.powerEnabled && c'.motionEnabled
      && c'.next.Some? && c'.next.value.command.deceleration == I32_MAX
  {
    hide Reached, ClosedLoop.Demand, AwaitedLeg, FlagsAfter, CommandFor;
    var c := Underway(WEAK_NEXT);
    ReadyMeans(c, 999_999, 380_000);
    GrantedPass();
    var f := Fetched(c, RUNAWAY[0]);
    TickSummary(DEFAULTS, c, RUNAWAY[0]);
    assert TickOn(DEFAULTS, c, RUNAWAY[0]).direction == Some(-1);
    HandoffPass(DEFAULTS, c, RUNAWAY[0]);
    PassSends(DEFAULTS, c, RUNAWAY[0]);
    WeakAnswers(f);
  }

  /**
    The gate is not enough closer by. Here, with the default settings, it grants a handoff one unit before
    the waypoint, from a good approach, to a command that hardly decelerates. The drive obeys what is in
    force on every pass. It is found exactly on the waypoint, where the clamp's budget is zero, and then
    beyond the margin.
   */
  lemma GateIsNotEnough()
    ensures
      var c := Underway(WEAK_NEXT);
      var f, s := Fetched(c, RUNAWAY[0]), SampleAt(c, RUNAWAY[0]);
      && Reached(DEFAULTS, f, DemandAt(c, RUNAWAY[0]).value) && s.position != CurrentTarget(f)
      && CanRecover(Abs(CurrentTarget(f) - s.position), s.velocity, DEFAULTS.overshootMargin, DEFAULTS.hardMax)
      && GoodStart(ApproachLeg(DEFAULTS, c, 1), true, s)
      && Suffices(Queued([], c), ApproachLeg(DEFAULTS, c, 1), true, s)
      && !GoodStart(AwaitedLeg(DEFAULTS, f, 1), true, s)
      && AllAwait(DEFAULTS, TickOn(DEFAULTS, c, RUNAWAY[0]), RUNAWAY[1..])
      && Driven(DEFAULTS, c, RUNAWAY, true, Queued([], c))
      && Abs(DEFAULTS.overshootMargin)
         < Samples(DEFAULTS, c, RUNAWAY, true, Queued([], c))[3].position - CurrentTarget(f)
  {
    hide TickOn, Reached, StillAwaits, Awaiting, ClosedLoop.Demand, AwaitedLeg, FlagsAfter;
    var c0 := Underway(WEAK_NEXT);
    ReadyMeans(c0, 999_999, 380_000);
    GrantedPass();
    GrantedStart();
    var c1 := TickOn(DEFAULTS, c0, RUNAWAY[0]);
    GrantedTick();
    RunawayPass(c1, 1_000_000, 379_996);
    var c2 := TickOn(DEFAULTS, c1, RUNAWAY[1]);
    RunawayPass(c2, 1_000_010, 318_507);
    var c3 := TickOn(DEFAULTS, c2, RUNAWAY[2]);
    RunawayPass(c3, 1_050_001, 318_506);
    WeakAnswers(Fetched(c0, RUNAWAY[0]));
    WeakAnswers(c1);
    var c4 := TickOn(DEFAULTS, c3, RUNAWAY[3]);
    assert RUNAWAY[1..] == [RUNAWAY[1], RUNAWAY[2], RUNAWAY[3]];
    assert RUNAWAY[1..][1..] == [RUNAWAY[2], RUNAWAY[3]];
    assert RUNAWAY[1..][1..][1..] == [RUNAWAY[3]] && RUNAWAY[1..][1..][1..][1..] == [];
    assert AllAwait(DEFAULTS, c4, []);
    assert AllAwait(DEFAULTS, c3, [RUNAWAY[3]]);
    assert AllAwait(DEFAULTS, c2, [RUNAWAY[2], RUNAWAY[3]]);
  }
}

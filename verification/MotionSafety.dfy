/**
  The controller and the drive together: obeying the decelerations sent keeps the drive within the
  margin of the waypoint it approaches, and after an early handoff, until it is seen moving along the
  new leg, within the margin of the waypoint it has just completed. Also the ranges in which a pass of
  the loop is free of overflow.

  The timing is that of the loop. A pass sends the command that the pass before has computed, and then
  receives a response. A command computed from one response is therefore in force, at the earliest, from
  the next response on, and later if the responses themselves are old. The queue holds the decelerations
  of the commands that are computed but not yet in force; one command, the one about to be sent, makes
  the shortest queue that the program has.
 */
module MotionSafety {
  import opened Base
  import opened Kinematics
  import opened Messages
  import opened Controller
  import opened ControllerRuns
  import opened ClosedLoop
  import opened MachineArithmetic
  import opened SharpBound

  function SampleAt(c: ControllerState, input: Input): Sample
    requires DemandAt(c, input).Some?
  {
    Sample(DemandAt(c, input).value.position, DemandAt(c, input).value.velocity)
  }

  // The queue with the command that a pass has computed.
  function Queued(queue: seq<int>, c: ControllerState): (r: seq<int>)
    requires c.next.Some?
    ensures |r| == |queue| + 1
  {
    queue + [c.next.value.command.deceleration]
  }

  // Passes with motion enabled and the drive ready, and the drive's answers to what is in force.
  predicate Driven(settings: Settings, c: ControllerState, inputs: seq<Input>, up: bool, queue: seq<int>)
    decreases |inputs|
  {
    inputs != [] ==>
      var c' := TickOn(settings, c, inputs[0]);
      && DemandAt(c, inputs[0]).Some? && Fetched(c, inputs[0]).motionEnabled && c'.next.Some?
      && (|inputs| > 1 ==>
            && DemandAt(c', inputs[1]).Some?
            && Obeys(Queued(queue, c')[0], up, SampleAt(c, inputs[0]), SampleAt(c', inputs[1])))
      && Driven(settings, c', inputs[1..], up, Queued(queue, c')[1..])
  }

  function Samples(settings: Settings, c: ControllerState, inputs: seq<Input>, up: bool, queue: seq<int>)
    : (r: seq<Sample>)
    requires Driven(settings, c, inputs, up, queue)
    ensures |r| == |inputs|
    decreases |inputs|
  {
    if inputs == [] then []
    else
      var c' := TickOn(settings, c, inputs[0]);
      [SampleAt(c, inputs[0])] + Samples(settings, c', inputs[1..], up, Queued(queue, c')[1..])
  }

  // ----- the leg that a pass works on -----

  function PassLeg(settings: Settings, c: ControllerState, input: Input): Leg
    requires Fetched(c, input).commands != [] && DemandAt(c, input).Some?
  {
    var f, d := Fetched(c, input), DemandAt(c, input).value;
    var goal := ClampGoal(settings, f, d);
    Leg(goal.target, f.commands[Advanced(settings, f, d).index].deceleration, goal.direction,
        settings.overshootMargin, settings.hardMin, settings.hardMax)
  }

  lemma PassSends(settings: Settings, c: ControllerState, input: Input)
    requires Fetched(c, input).commands != [] && DemandAt(c, input).Some? && Fetched(c, input).motionEnabled
    ensures
      var next := TickOn(settings, c, input).next;
      next.Some? && next.value.command.deceleration
                 == ClosedLoop.Demand(PassLeg(settings, c, input), SampleAt(c, input))
  {
    hide ClampDeceleration, Reached, FlagsAfter;
  }

  // Every pass works on the leg.
  predicate AllWorkOn(settings: Settings, c: ControllerState, inputs: seq<Input>, leg: Leg)
    decreases |inputs|
  {
    inputs != [] ==>
      && DemandAt(c, inputs[0]).Some? && Fetched(c, inputs[0]).commands != []
      && PassLeg(settings, c, inputs[0]) == leg
      && AllWorkOn(settings, TickOn(settings, c, inputs[0]), inputs[1..], leg)
  }

  lemma {:induction false} SamplesFormRun(
    settings: Settings, c: ControllerState, inputs: seq<Input>, leg: Leg, up: bool, queue: seq<int>
  )
    requires Driven(settings, c, inputs, up, queue) && AllWorkOn(settings, c, inputs, leg)
    ensures IsDelayedRun(leg, up, queue, Samples(settings, c, inputs, up, queue))
    decreases |inputs|
  {
    hide TickOn, ClosedLoop.Demand, PassLeg, Obeys;
    if inputs != [] {
      var c' := TickOn(settings, c, inputs[0]);
      PassSends(settings, c, inputs[0]);
      SamplesFormRun(settings, c', inputs[1..], leg, up, Queued(queue, c')[1..]);
      var run := Samples(settings, c, inputs, up, queue);
      assert run[1..] == Samples(settings, c', inputs[1..], up, Queued(queue, c')[1..]);
    }
  }

  lemma DrivenStaysWithin(
    settings: Settings, c: ControllerState, inputs: seq<Input>, leg: Leg, up: bool, queue: seq<int>, j: nat
  )
    requires j < |inputs| && Driven(settings, c, inputs, up, queue) && AllWorkOn(settings, c, inputs, leg)
    requires GoodStart(leg, up, SampleAt(c, inputs[0])) && Suffices(queue, leg, up, SampleAt(c, inputs[0]))
    ensures Toward(up, Samples(settings, c, inputs, up, queue)[j].position - leg.target) <= Abs(leg.overshootMargin)
  {
    hide TickOn, GoodStart, Suffices, IsDelayedRun, AllWorkOn, IsRun;
    SamplesFormRun(settings, c, inputs, leg, up, queue);
    assert Samples(settings, c, inputs, up, queue)[0] == SampleAt(c, inputs[0]);
    DelayedNeverOvershoots(leg, up, queue, Samples(settings, c, inputs, up, queue), j);
  }

  // ----- a plain approach -----

  // The drive has been seen moving toward the waypoint at w.
  predicate Approaching(c: ControllerState, w: nat) {
    w < |c.commands| && c.index == w && c.hasApproached
  }

  predicate StillApproaches(settings: Settings, c: ControllerState, input: Input) {
    && ResetIndex !in input.actions
    && KeepsList(c, input)
    && (c.commands != [] && DemandAt(c, input).Some? ==>
          !Reached(settings, Fetched(c, input), DemandAt(c, input).value))
  }

  predicate AllApproach(settings: Settings, c: ControllerState, inputs: seq<Input>)
    decreases |inputs|
  {
    inputs != [] ==>
      && StillApproaches(settings, c, inputs[0])
      && AllApproach(settings, TickOn(settings, c, inputs[0]), inputs[1..])
  }

  function ApproachLeg(settings: Settings, c: ControllerState, w: nat): Leg
    requires w < |c.commands|
  {
    Leg(c.commands[w].position, c.commands[w].deceleration, c.direction,
        settings.overshootMargin, settings.hardMin, settings.hardMax)
  }

  lemma ApproachingStep(settings: Settings, c: ControllerState, input: Input, w: nat)
    requires Approaching(c, w) && StillApproaches(settings, c, input) && DemandAt(c, input).Some?
    ensures Fetched(c, input).commands == c.commands
    ensures PassLeg(settings, c, input) == ApproachLeg(settings, c, w)
    ensures
      var c' := TickOn(settings, c, input);
      Approaching(c', w) && ApproachLeg(settings, c', w) == ApproachLeg(settings, c, w)
  {
    hide ClampDeceleration, TargetReached, FlagsAfter;
  }

  lemma {:induction false} ApproachWorksOn(
    settings: Settings, c: ControllerState, inputs: seq<Input>, w: nat, up: bool, queue: seq<int>
  )
    requires Approaching(c, w) && AllApproach(settings, c, inputs) && Driven(settings, c, inputs, up, queue)
    ensures AllWorkOn(settings, c, inputs, ApproachLeg(settings, c, w))
    decreases |inputs|
  {
    hide TickOn, StillApproaches, PassLeg;
    if inputs != [] {
      var c' := TickOn(settings, c, inputs[0]);
      ApproachingStep(settings, c, inputs[0], w);
      ApproachWorksOn(settings, c', inputs[1..], w, up, Queued(queue, c')[1..]);
    }
  }

  /**
    A drive that obeys what is in force stays within the margin of the waypoint that it approaches, on
    every pass until that waypoint counts as reached, however long the commands are on their way.
   */
  lemma ApproachNeverOvershoots(
    settings: Settings, c: ControllerState, inputs: seq<Input>, w: nat, up: bool, queue: seq<int>, j: nat
  )
    requires j < |inputs| && Approaching(c, w)
    requires AllApproach(settings, c, inputs) && Driven(settings, c, inputs, up, queue)
    requires GoodStart(ApproachLeg(settings, c, w), up, SampleAt(c, inputs[0]))
    requires Suffices(queue, ApproachLeg(settings, c, w), up, SampleAt(c, inputs[0]))
    ensures Toward(up, Samples(settings, c, inputs, up, queue)[j].position - c.commands[w].position)
         <= Abs(settings.overshootMargin)
  {
    hide TickOn, AllApproach, AllWorkOn, GoodStart, Suffices;
    ApproachWorksOn(settings, c, inputs, w, up, queue);
    DrivenStaysWithin(settings, c, inputs, ApproachLeg(settings, c, w), up, queue, j);
  }

  // ----- an early handoff -----

  // The leg that the clamp works on while the leg after w is awaited.
  function AwaitedLeg(settings: Settings, c: ControllerState, w: nat): Leg
    requires w < |c.commands|
  {
    var goal := CompletedGoal(c.commands, w);
    Leg(goal.target, c.commands[Next(w, |c.commands|)].deceleration, goal.direction,
        settings.overshootMargin, settings.hardMin, settings.hardMax)
  }

  lemma AwaitingPass(settings: Settings, c: ControllerState, input: Input, w: nat)
    requires Awaiting(c, w) && StillAwaits(settings, c, input) && DemandAt(c, input).Some?
    ensures Fetched(c, input).commands == c.commands
    ensures PassLeg(settings, c, input) == AwaitedLeg(settings, c, w)
  {
    AwaitingStep(settings, c, input, w);
    AwaitingGoal(settings, Fetched(c, input), DemandAt(c, input).value, w);
  }

  lemma {:induction false} AwaitingWorksOn(
    settings: Settings, c: ControllerState, inputs: seq<Input>, w: nat, up: bool, queue: seq<int>
  )
    requires Awaiting(c, w) && AllAwait(settings, c, inputs) && Driven(settings, c, inputs, up, queue)
    ensures AllWorkOn(settings, c, inputs, AwaitedLeg(settings, c, w))
    decreases |inputs|
  {
    hide TickOn, StillAwaits, Awaiting, PassLeg;
    if inputs != [] {
      var c' := TickOn(settings, c, inputs[0]);
      AwaitingPass(settings, c, inputs[0], w);
      AwaitingStep(settings, c, inputs[0], w);
      AwaitingWorksOn(settings, c', inputs[1..], w, up, Queued(queue, c')[1..]);
    }
  }

  // The leg of the handoff pass itself, and the state it leaves.
  lemma HandoffPass(settings: Settings, c: ControllerState, input: Input)
    requires Fetched(c, input).commands != [] && DemandAt(c, input).Some?
    requires Reached(settings, Fetched(c, input), DemandAt(c, input).value)
    requires TickOn(settings, c, input).direction.Some?
    ensures
      var f, c' := Fetched(c, input), TickOn(settings, c, input);
      var w := CurrentIndex(f);
      && Awaiting(c', w) && c'.commands == f.commands
      && PassLeg(settings, c, input) == AwaitedLeg(settings, f, w)
  {
    hide ClampDeceleration, TargetReached, FlagsAfter;
    HandoffProtectsCompleted(settings, c, input);
  }

  /**
    The drive reaches a waypoint, perhaps early, with a non-empty leg to come. From that pass on, and
    until it is seen moving along the new leg or that leg is handed off in its turn, a drive that
    obeys what is in force stays within the margin of the waypoint.
   */
  lemma HandoffNeverOvershoots(
    settings: Settings, c: ControllerState, inputs: seq<Input>, up: bool, queue: seq<int>, j: nat
  )
    requires j < |inputs| && Driven(settings, c, inputs, up, queue)
    requires Fetched(c, inputs[0]).commands != []
    requires Reached(settings, Fetched(c, inputs[0]), DemandAt(c, inputs[0]).value)
    requires TickOn(settings, c, inputs[0]).direction.Some?
    requires AllAwait(settings, TickOn(settings, c, inputs[0]), inputs[1..])
    requires
      var f := Fetched(c, inputs[0]);
      && GoodStart(AwaitedLeg(settings, f, CurrentIndex(f)), up, SampleAt(c, inputs[0]))
      && Suffices(queue, AwaitedLeg(settings, f, CurrentIndex(f)), up, SampleAt(c, inputs[0]))
    ensures
      var f := Fetched(c, inputs[0]);
      Toward(up, Samples(settings, c, inputs, up, queue)[j].position - CurrentTarget(f)) <= Abs(settings.overshootMargin)
  {
    hide TickOn, StillAwaits, GoodStart, Suffices, Reached, PassLeg;
    var f, c' := Fetched(c, inputs[0]), TickOn(settings, c, inputs[0]);
    HandoffPass(settings, c, inputs[0]);
    AwaitingWorksOn(settings, c', inputs[1..], CurrentIndex(f), up, Queued(queue, c')[1..]);
    DrivenStaysWithin(settings, c, inputs, AwaitedLeg(settings, f, CurrentIndex(f)), up, queue, j);
  }

  /**
    From which states at a handoff an obedient drive can pass the margin, exactly: those of CanPass, which
    is decided by the velocity, the distance ahead, the next command's deceleration and the settings.
   */
  lemma HandoffPassesExactlyWhen(settings: Settings, c: ControllerState, w: nat, up: bool, s: Sample)
    requires w < |c.commands| && 0 <= c.commands[Next(w, |c.commands|)].deceleration <= I32_MAX
    requires 0 <= settings.hardMin <= settings.hardMax
    requires LegDirection(c.commands, w) in {None, Some(Toward(up, 1))}
    ensures SomeRunPasses(AwaitedLeg(settings, c, w), up, s) <==> CanPass(AwaitedLeg(settings, c, w), up, s)
  {
    hide SomeRunPasses, CanPass;
    PassesExactlyWhen(AwaitedLeg(settings, c, w), up, s);
  }

  lemma GateLeavesEnough(square: int, ahead: int, margin: nat, hardMax: int, next: int)
    requires 0 < ahead && square <= 2 * hardMax * (ahead + margin)
    requires (hardMax - next) * margin <= (I32_MAX - hardMax) * ahead
    ensures CanBeHeld(square, ahead, next, margin)
  {
    assert 2 * hardMax * (ahead + margin) == 2 * hardMax * ahead + 2 * hardMax * margin;
    assert 2 * ((hardMax - next) * margin) == 2 * hardMax * margin - 2 * next * margin;
    assert 2 * ((I32_MAX - hardMax) * ahead) == 2 * I32_MAX * ahead - 2 * hardMax * ahead;
  }

  /**
    The program's gate on a predicted crossing asks that the larger hard limit stops the drive in time. That
    is enough when the drive is far enough from the waypoint, compared with what the next command's
    deceleration lacks over the margin.
   */
  lemma GateSuffices(settings: Settings, c: ControllerState, w: nat, up: bool, s: Sample)
    requires w < |c.commands| && 0 <= c.commands[Next(w, |c.commands|)].deceleration <= I32_MAX
    requires LegDirection(c.commands, w) == Some(Toward(up, 1)) && 0 <= settings.hardMax
    requires
      var ahead, margin := Toward(up, c.commands[w].position - s.position), Abs(settings.overshootMargin);
      && 0 < ahead && CanRecover(ahead, s.velocity, settings.overshootMargin, settings.hardMax)
      && (settings.hardMax - c.commands[Next(w, |c.commands|)].deceleration) * margin
         <= (I32_MAX - settings.hardMax) * ahead
    ensures GoodStart(AwaitedLeg(settings, c, w), up, s)
  {
    GateLeavesEnough(s.velocity * s.velocity, Toward(up, c.commands[w].position - s.position),
                     Abs(settings.overshootMargin), settings.hardMax, c.commands[Next(w, |c.commands|)].deceleration);
  }

  // The program's default limits: 15 m/s^2, doubled and halved for the hard ones, and 5 mm.
  const DEFAULTS: Settings := Settings(2_000, 50_000, 750_000, 3_000_000)

  /** With the default settings it is enough from 70 units, seven micrometres, before the waypoint. */
  lemma GateSufficesByDefault(c: ControllerState, w: nat, up: bool, s: Sample)
    requires w < |c.commands| && 0 <= c.commands[Next(w, |c.commands|)].deceleration <= 1_500_000
    requires LegDirection(c.commands, w) == Some(Toward(up, 1))
    requires
      var ahead := Toward(up, c.commands[w].position - s.position);
      70 <= ahead && CanRecover(ahead, s.velocity, DEFAULTS.overshootMargin, DEFAULTS.hardMax)
    ensures GoodStart(AwaitedLeg(DEFAULTS, c, w), up, s)
  {
    GateSuffices(DEFAULTS, c, w, up, s);
  }

  // ----- leg after leg -----

  // A pass that sends a motion.
  predicate Moves(c: ControllerState, input: Input) {
    && DemandAt(c, input).Some? && Fetched(c, input).motionEnabled && Fetched(c, input).commands != []
  }

  // The drive can be held, and what is in force is no weaker than the answer to it. It may stand.
  predicate StartsWell(leg: Leg, up: bool, queue: seq<int>, s: Sample) {
    GoodStart(leg, up, s) && Suffices(queue, leg, up, s)
  }

  // From one pass to the next the drive obeys what is in force, on the same leg, or starts well: on
  // another leg, in the other direction, or after speeding up.
  predicate Continues(
    settings: Settings, c: ControllerState, first: Input, second: Input, up: bool, up': bool, queue: seq<int>
  )
    requires Moves(c, first) && Moves(TickOn(settings, c, first), second)
  {
    var c' := TickOn(settings, c, first);
    var s, s', leg, leg' :=
      SampleAt(c, first), SampleAt(c', second), PassLeg(settings, c, first), PassLeg(settings, c', second);
    && c'.next.Some?
    && ((leg' == leg && up' == up && Obeys(Queued(queue, c')[0], up, s, s'))
        || StartsWell(leg', up', Queued(queue, c')[1..], s'))
  }

  // A run over any number of legs, with the direction in which each pass sees the drive move.
  predicate Journey(settings: Settings, c: ControllerState, inputs: seq<Input>, ups: seq<bool>, queue: seq<int>)
    requires |ups| == |inputs|
    decreases |inputs|
  {
    inputs != [] ==>
      && Moves(c, inputs[0])
      && (|inputs| > 1 ==>
            var c' := TickOn(settings, c, inputs[0]);
            && Moves(c', inputs[1])
            && Continues(settings, c, inputs[0], inputs[1], ups[0], ups[1], queue)
            && Journey(settings, c', inputs[1..], ups[1..], Queued(queue, c')[1..]))
  }

  // Every pass finds the drive within the margin of the waypoint that the pass protects.
  predicate EveryPassWithin(settings: Settings, c: ControllerState, inputs: seq<Input>, ups: seq<bool>)
    requires |ups| == |inputs|
    decreases |inputs|
  {
    inputs != [] ==>
      && Moves(c, inputs[0])
      && Toward(ups[0], SampleAt(c, inputs[0]).position - PassLeg(settings, c, inputs[0]).target)
         <= Abs(settings.overshootMargin)
      && EveryPassWithin(settings, TickOn(settings, c, inputs[0]), inputs[1..], ups[1..])
  }

  /** A pass that goes on approaching continues the journey by obeying. */
  lemma ApproachContinues(
    settings: Settings, c: ControllerState, first: Input, second: Input, w: nat, up: bool, queue: seq<int>
  )
    requires Moves(c, first) && Moves(TickOn(settings, c, first), second)
    requires Approaching(c, w) && StillApproaches(settings, c, first)
    requires StillApproaches(settings, TickOn(settings, c, first), second)
    requires TickOn(settings, c, first).next.Some?
    requires Obeys(Queued(queue, TickOn(settings, c, first))[0], up,
                   SampleAt(c, first), SampleAt(TickOn(settings, c, first), second))
    ensures Continues(settings, c, first, second, up, up, queue)
  {
    hide TickOn, StillApproaches, Approaching, PassLeg, Obeys, StartsWell;
    ApproachingStep(settings, c, first, w);
    ApproachingStep(settings, TickOn(settings, c, first), second, w);
  }

  /** So does one that goes on awaiting the new leg. */
  lemma AwaitContinues(
    settings: Settings, c: ControllerState, first: Input, second: Input, w: nat, up: bool, queue: seq<int>
  )
    requires Moves(c, first) && Moves(TickOn(settings, c, first), second)
    requires Awaiting(c, w) && StillAwaits(settings, c, first)
    requires StillAwaits(settings, TickOn(settings, c, first), second)
    requires TickOn(settings, c, first).next.Some?
    requires Obeys(Queued(queue, TickOn(settings, c, first))[0], up,
                   SampleAt(c, first), SampleAt(TickOn(settings, c, first), second))
    ensures Continues(settings, c, first, second, up, up, queue)
  {
    hide TickOn, StillAwaits, Awaiting, PassLeg, Obeys, StartsWell;
    AwaitingPass(settings, c, first, w);
    AwaitingStep(settings, c, first, w);
    AwaitingPass(settings, TickOn(settings, c, first), second, w);
  }

  // The drive stands, moves away, or can be held by the target, and is within the margin of it.
  predicate HeldAt(settings: Settings, target: int, requested: int, up: bool, s: Sample) {
    var ahead, margin := Toward(up, target - s.position), Abs(settings.overshootMargin);
    && 0 <= margin + ahead
    && (ClosedLoop.Moving(up, s) ==> CanBeHeld(s.velocity * s.velocity, ahead, requested, margin))
  }

  /**
    A handoff continues it if the next command's deceleration lets the drive be held, moving, standing or
    turning back, and what is in force is no weaker than the answer.
   */
  lemma HandoffContinues(
    settings: Settings, c: ControllerState, first: Input, second: Input, up: bool, queue: seq<int>
  )
    requires Moves(c, first) && Moves(TickOn(settings, c, first), second)
    requires TickOn(settings, c, first).next.Some?
    requires
      var c' := TickOn(settings, c, first);
      var f, s := Fetched(c', second), SampleAt(c', second);
      var w := CurrentIndex(f);
      var next := f.commands[Next(w, |f.commands|)].deceleration;
      && Reached(settings, f, DemandAt(c', second).value) && TickOn(settings, c', second).direction.Some?
      && LegDirection(f.commands, w) in {None, Some(Toward(up, 1))}
      && 0 <= next <= I32_MAX
      && HeldAt(settings, f.commands[w].position, next, up, s)
      && Suffices(Queued(queue, c')[1..], AwaitedLeg(settings, f, w), up, s)
    ensures Continues(settings, c, first, second, up, up, queue)
  {
    hide TickOn, Reached, CanBeHeld, Suffices, Obeys, PassLeg;
    var c' := TickOn(settings, c, first);
    var f := Fetched(c', second);
    HandoffPass(settings, c', second);
    assert GoodStart(AwaitedLeg(settings, f, CurrentIndex(f)), up, SampleAt(c', second));
  }

  // The first pass that sees the drive move along the awaited leg approaches the waypoint at its end.
  lemma NewLegPass(settings: Settings, c: ControllerState, input: Input, w: nat)
    requires Awaiting(c, w) && ResetIndex !in input.actions && KeepsList(c, input) && DemandAt(c, input).Some?
    requires
      var f, d := Fetched(c, input), DemandAt(c, input).value;
      MovingToward(CurrentTarget(f) - d.position, d.velocity, f.direction) && !Reached(settings, f, d)
    ensures PassLeg(settings, c, input) == ApproachLeg(settings, c, c.index)
    ensures
      var c' := TickOn(settings, c, input);
      Approaching(c', c.index) && c'.commands == c.commands && c'.direction == c.direction
  {
    hide ClampDeceleration, TargetReached, FlagsAfter;
  }

  /** That pass continues the journey under the same condition, for the new waypoint and its own command. */
  lemma NewLegContinues(
    settings: Settings, c: ControllerState, first: Input, second: Input, w: nat, up: bool, up': bool, queue: seq<int>
  )
    requires Moves(c, first) && Moves(TickOn(settings, c, first), second)
    requires TickOn(settings, c, first).next.Some?
    requires Awaiting(c, w) && StillAwaits(settings, c, first) && c.direction == Some(Toward(up', 1))
    requires
      var c' := TickOn(settings, c, first);
      var f, d, s := Fetched(c', second), DemandAt(c', second).value, SampleAt(c', second);
      var command := c.commands[c.index];
      && ResetIndex !in second.actions && KeepsList(c', second)
      && MovingToward(CurrentTarget(f) - d.position, d.velocity, f.direction) && !Reached(settings, f, d)
      && 0 <= command.deceleration <= I32_MAX
      && HeldAt(settings, command.position, command.deceleration, up', s)
      && Suffices(Queued(queue, c')[1..], ApproachLeg(settings, c, c.index), up', s)
    ensures Continues(settings, c, first, second, up, up', queue)
  {
    hide TickOn, Reached, StillAwaits, CanBeHeld, Suffices, Obeys, PassLeg;
    var c' := TickOn(settings, c, first);
    AwaitingStep(settings, c, first, w);
    NewLegPass(settings, c', second, w);
    AwaitedDirection(settings, c, first, w);
    assert GoodStart(ApproachLeg(settings, c', c'.index), up', SampleAt(c', second));
  }

  lemma AwaitedDirection(settings: Settings, c: ControllerState, input: Input, w: nat)
    requires Awaiting(c, w) && StillAwaits(settings, c, input)
    ensures TickOn(settings, c, input).direction == c.direction && TickOn(settings, c, input).index == c.index
  {
    AwaitingStep(settings, c, input, w);
  }

  lemma ControlContinues(
    settings: Settings, c: ControllerState, first: Input, second: Input, up: bool, up': bool, queue: seq<int>
  )
    requires Moves(c, first) && Moves(TickOn(settings, c, first), second)
    requires Continues(settings, c, first, second, up, up', queue)
    requires StartsWell(PassLeg(settings, c, first), up, queue, SampleAt(c, first))
    ensures
      var c' := TickOn(settings, c, first);
      && c'.next.Some?
      && StartsWell(PassLeg(settings, c', second), up', Queued(queue, c')[1..], SampleAt(c', second))
  {
    hide TickOn, PassLeg, GoodStart, Suffices, Obeys, ClosedLoop.Demand;
    var c' := TickOn(settings, c, first);
    PassSends(settings, c, first);
    if !StartsWell(PassLeg(settings, c', second), up', Queued(queue, c')[1..], SampleAt(c', second)) {
      DelayedStep(PassLeg(settings, c, first), up, queue, SampleAt(c, first), SampleAt(c', second));
    }
  }

  lemma StartIsWithin(settings: Settings, c: ControllerState, input: Input, up: bool, queue: seq<int>)
    requires Moves(c, input) && StartsWell(PassLeg(settings, c, input), up, queue, SampleAt(c, input))
    ensures Toward(up, SampleAt(c, input).position - PassLeg(settings, c, input).target) <= Abs(settings.overshootMargin)
  {
    hide ClampGoal, Advanced, Suffices, SampleAt;
  }

  /**
    Approach, handoff, the next approach and so on, over any number of legs and from rest: if each leg
    starts well and is obeyed until the next one starts, every pass finds the drive within the margin of
    the waypoint that the pass protects.
   */
  lemma {:induction false} JourneyStaysWithin(
    settings: Settings, c: ControllerState, inputs: seq<Input>, ups: seq<bool>, queue: seq<int>
  )
    requires inputs != [] && |ups| == |inputs| && Journey(settings, c, inputs, ups, queue)
    requires StartsWell(PassLeg(settings, c, inputs[0]), ups[0], queue, SampleAt(c, inputs[0]))
    ensures EveryPassWithin(settings, c, inputs, ups)
    decreases |inputs|
  {
    hide TickOn, StartsWell, Continues, PassLeg;
    StartIsWithin(settings, c, inputs[0], ups[0], queue);
    if |inputs| > 1 {
      var c' := TickOn(settings, c, inputs[0]);
      ControlContinues(settings, c, inputs[0], inputs[1], ups[0], ups[1], queue);
      JourneyStaysWithin(settings, c', inputs[1..], ups[1..], Queued(queue, c')[1..]);
    }
  }

  // Waypoints and settings of a configuration that leaves room in the machine integers.
  predicate Configured(settings: Settings, commands: seq<MotionCommand>, limit: int) {
    && settings.intervalUs <= 3_000
    && 0 <= settings.hardMin <= settings.hardMax <= I32_MAX
    && limit <= I32_MAX
    && forall i | 0 <= i < |commands| ::
         InRange(commands[i].position, limit, settings.overshootMargin) && 0 <= commands[i].deceleration <= I32_MAX
  }

  // Every clamp of a pass: with motion enabled, and paused.
  predicate ClampsFit(settings: Settings, c: ControllerState, d: Controller.Demand)
    requires c.commands != []
  {
    var goal, command := ClampGoal(settings, c, d), c.commands[Advanced(settings, c, d).index];
    && CheckedClamp(d.position, d.velocity, goal.target, command.deceleration, goal.direction,
                    settings.overshootMargin, settings.hardMin, settings.hardMax)
       == Some(ClampFor(settings, d, goal, command.deceleration))
    && CheckedClamp(d.position, d.velocity, goal.target, settings.hardMin, goal.direction,
                    settings.overshootMargin, settings.hardMin, settings.hardMax)
       == Some(ClampFor(settings, d, goal, settings.hardMin))
  }

  // Every operation of the arrival test: the predictors, the distance after them, and the gate.
  predicate ArrivalFits(settings: Settings, c: ControllerState, d: Controller.Demand)
    requires c.commands != []
  {
    var target := CurrentTarget(c);
    var next := CheckedPosition(d.position, d.velocity, d.acceleration, Horizon(settings));
    && next.Some? && FitsI64(target - next.value)
    && CheckedVelocity(d.velocity, d.acceleration, Horizon(settings)).Some?
    && CheckedGate(d.position, d.velocity, target, settings.overshootMargin, settings.hardMax)
       == Some(CanRecover(Abs(target - d.position), d.velocity, settings.overshootMargin, settings.hardMax))
  }

  /** Whatever i32 feedback arrives, no operation of a pass over a configured list overflows. */
  lemma PassNeverOverflows(settings: Settings, c: ControllerState, d: Controller.Demand, limit: int)
    requires c.commands != [] && Configured(settings, c.commands, limit)
    requires IsI32(d.position) && IsI32(d.velocity) && IsI32(d.acceleration)
    ensures ClampsFit(settings, c, d) && ArrivalFits(settings, c, d)
    ensures forall i, j | 0 <= i < |c.commands| && 0 <= j < |c.commands| ::
      IsI32(c.commands[i].position - c.commands[j].position)
  {
    PassClampsFit(settings, c, d, limit);
    PassArrivalFits(settings, c, d, limit);
    assert forall i | 0 <= i < |c.commands| :: InRange(c.commands[i].position, limit, settings.overshootMargin);
  }

  lemma PassClampsFit(settings: Settings, c: ControllerState, d: Controller.Demand, limit: int)
    requires c.commands != [] && Configured(settings, c.commands, limit)
    requires IsI32(d.position) && IsI32(d.velocity) && IsI32(d.acceleration)
    ensures ClampsFit(settings, c, d)
  {
    hide ClampDeceleration, CheckedClamp, ClampGoal, Reached;
    var goal := ClampGoal(settings, c, d);
    var command := c.commands[Advanced(settings, c, d).index];
    GoalIsWaypoint(settings, c, d, limit);
    ClampNeverOverflows(d.position, d.velocity, goal.target, command.deceleration, goal.direction,
                        settings.overshootMargin, settings.hardMin, settings.hardMax, limit);
    ClampNeverOverflows(d.position, d.velocity, goal.target, settings.hardMin, goal.direction,
                        settings.overshootMargin, settings.hardMin, settings.hardMax, limit);
  }

  lemma PassArrivalFits(settings: Settings, c: ControllerState, d: Controller.Demand, limit: int)
    requires c.commands != [] && Configured(settings, c.commands, limit)
    requires IsI32(d.position) && IsI32(d.velocity) && IsI32(d.acceleration)
    ensures ArrivalFits(settings, c, d)
  {
    hide CheckedPosition, CheckedVelocity, CheckedGate, CanRecover, RawPosition, RawVelocity;
    PredictorsNeverOverflow(d.position, d.velocity, d.acceleration, Horizon(settings));
    GateNeverOverflows(d.position, d.velocity, CurrentTarget(c), settings.overshootMargin, settings.hardMax, limit);
    assert IsI32(PredictPosition(d.position, d.velocity, d.acceleration, Horizon(settings)));
  }

  lemma GoalIsWaypoint(settings: Settings, c: ControllerState, d: Controller.Demand, limit: int)
    requires c.commands != [] && Configured(settings, c.commands, limit)
    ensures InRange(ClampGoal(settings, c, d).target, limit, settings.overshootMargin)
    ensures 0 <= c.commands[Advanced(settings, c, d).index].deceleration <= I32_MAX
  {
  }
}

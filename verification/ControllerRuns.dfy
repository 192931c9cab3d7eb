/** What the controller keeps over whole runs of its loop. */
module ControllerRuns {
  import opened Base
  import opened Kinematics
  import opened ClampTheorems
  import opened Messages
  import opened Controller

  // What one pass meets: the actions it takes, the list if the lock was free, the drive's response.
  datatype Input = Input(actions: set<DriveAction>, shared: Option<DriveCommands>, response: Response)

  function TickOn(settings: Settings, c: ControllerState, input: Input): ControllerState {
    Tick(settings, c, input.actions, input.shared, input.response)
  }

  function RunFrom(settings: Settings, c: ControllerState, inputs: seq<Input>): ControllerState
    decreases |inputs|
  {
    if inputs == [] then c else RunFrom(settings, TickOn(settings, c, inputs[0]), inputs[1..])
  }

  // The state that the pass computes from.
  function Fetched(c: ControllerState, input: Input): ControllerState {
    var taken := AfterActions(AfterSend(c), input.actions);
    if input.shared.Some? then AfterLock(taken, input.shared.value) else taken
  }

  function DemandAt(c: ControllerState, input: Input): Option<Demand> {
    DemandIn(Fetched(c, input).powerEnabled, input.response)
  }

  predicate KeepsList(c: ControllerState, input: Input) {
    input.shared.Some? ==> input.shared.value.commands == c.commands
  }

  predicate ListUnchanged(c: ControllerState, inputs: seq<Input>) {
    forall i | 0 <= i < |inputs| :: KeepsList(c, inputs[i])
  }

  lemma TickKeepsCommands(settings: Settings, c: ControllerState, input: Input)
    ensures TickOn(settings, c, input).commands == Fetched(c, input).commands
  {
  }

  /** The command computed carries a new number, which is what makes the drive carry it out. */
  lemma CommandIsNew(settings: Settings, c: ControllerState, input: Input)
    requires TickOn(settings, c, input).next.Some?
    ensures input.response.rawState.Some?
    ensures StatusFrom(input.response.rawState.value).OperationEnabled?
    ensures
      var last := input.response.rawState.value % 256 % 16;
      var next := TickOn(settings, c, input).next.value.count;
      next < 16 && next != last && (next == last + 1 || (last == 15 && next == 0))
  {
    hide Reached, CommandFor, FlagsAfter;
  }

  // ----- the arrival test, in terms of time -----

  lemma QuotientReaches(n: nat, d: int, q: nat)
    requires 0 < d
    ensures q <= n / d <==> q * d <= n
  {
    if q <= n / d {
      MulMono(d, q, n / d);
    } else {
      MulMono(d, n / d + 1, q);
    }
  }

  lemma AbsProduct(x: int, k: nat)
    ensures Abs(x * k) == Abs(x) * k
  {
    if x < 0 { assert (-x) * k == -(x * k); MulMono(k, x, 0); } else { MulMono(k, 0, x); }
  }

  /**
    At constant speed the crossing is predicted exactly when the drive, heading for the target, would
    be there within three ticks: distance <= speed * time, in units of 1e-7 m, 1e-6 m/s and 1e-6 s.
   */
  lemma CrossingIsWithinThreeTicks(settings: Settings, target: int, d: Demand)
    requires d.acceleration == 0 && IsI32(RawPosition(d.position, d.velocity, 0, 3 * settings.intervalUs))
    ensures WillCross(settings, target, d)
      <==> SameSign(target - d.position, d.velocity)
           && 100_000 * Abs(target - d.position) <= Abs(d.velocity) * (3 * settings.intervalUs)
  {
    var us := 3 * settings.intervalUs;
    var distance := Abs(target - d.position);
    AbsProduct(d.velocity, us);
    assert 0 * us * us * 50 == 0;
    var travel := d.velocity * us * 10;
    assert Abs(travel) == Abs(d.velocity) * us * 10;
    QuotientReaches(Abs(travel), 1_000_000, distance);
    assert RawPosition(d.position, d.velocity, 0, us) == d.position + TruncDiv(travel, 1_000_000);
    WrapKeeps(RawPosition(d.position, d.velocity, 0, us));
  }

  // The distance travelled in three ticks at constant acceleration, in units of 1e-19 m.
  function TravelInThreeTicks(settings: Settings, d: Demand): int {
    var us := 3 * settings.intervalUs;
    10_000_000 * d.velocity * us + 50 * d.acceleration * us * us
  }

  /**
    Under acceleration the prediction follows the law of motion over three ticks: a drive that will be two
    units beyond the target is predicted to cross it, one that will be two units short of it is not.
   */
  lemma CrossingFollowsMotion(settings: Settings, target: int, d: Demand)
    requires IsI32(RawPosition(d.position, d.velocity, d.acceleration, 3 * settings.intervalUs))
    ensures
      var ahead, travel := target - d.position, TravelInThreeTicks(settings, d);
      && (ahead > 0 && (ahead + 2) * 1_000_000_000_000 <= travel ==> WillCross(settings, target, d))
      && (ahead < 0 && travel <= (ahead - 2) * 1_000_000_000_000 ==> WillCross(settings, target, d))
      && (ahead > 0 && travel <= (ahead - 2) * 1_000_000_000_000 ==> !WillCross(settings, target, d))
      && (ahead < 0 && (ahead + 2) * 1_000_000_000_000 <= travel ==> !WillCross(settings, target, d))
  {
    hide RawPosition;
    var us := 3 * settings.intervalUs;
    PredictorsAreKinematics(d.position, d.velocity, d.acceleration, us);
    WrapKeeps(RawPosition(d.position, d.velocity, d.acceleration, us));
    hide WrapI32;
  }

  /** A stop is predicted exactly when a deceleration now in progress ends the motion within three ticks. */
  lemma StopIsWithinThreeTicks(settings: Settings, d: Demand)
    requires IsI32(RawVelocity(d.velocity, d.acceleration, 3 * settings.intervalUs))
    ensures WillStop(settings, d)
      <==> SameSign(-d.acceleration, d.velocity)
           && 100_000 * Abs(d.velocity) <= Abs(d.acceleration) * (3 * settings.intervalUs)
  {
    var us := 3 * settings.intervalUs;
    AbsProduct(d.acceleration, us);
    QuotientReaches(Abs(d.acceleration * us), 100_000, Abs(d.velocity));
    WrapKeeps(RawVelocity(d.velocity, d.acceleration, us));
  }

  // ----- errors -----

  predicate InError(input: Input) {
    input.response.rawState.Some? && StatusFrom(input.response.rawState.value).ErrorState?
  }

  /**
    Once the drive thread has taken the acknowledgement of an error, every request asks for it for as
    long as the drive reports the error.
   */
  lemma {:induction false} AcknowledgementStays(settings: Settings, c: ControllerState, inputs: seq<Input>)
    requires forall i | 0 <= i < |inputs| :: InError(inputs[i])
    requires ErrorAcknowledge in c.flags || (inputs != [] && AckError in inputs[0].actions)
    ensures ErrorAcknowledge in RunFrom(settings, c, inputs).flags
    decreases |inputs|
  {
    if inputs != [] {
      assert InError(inputs[0]);
      AcknowledgementStays(settings, TickOn(settings, c, inputs[0]), inputs[1..]);
    }
  }

  /** Power off always wins: no request of a pass without power asks for it, whatever the drive's state. */
  lemma NoPowerNoRequest(settings: Settings, c: ControllerState, input: Input)
    requires !Fetched(c, input).powerEnabled
    ensures SwitchOn !in TickOn(settings, c, input).flags && TickOn(settings, c, input).next.None?
  {
  }

  // ----- the stored direction is that of the current leg -----

  predicate OnLeg(c: ControllerState) {
    c.direction.Some? ==>
      c.index < |c.commands| && c.direction == LegDirection(c.commands, c.index)
  }

  /**
    Whatever list and index a pass meets, the index it moves the drive by is inside the list, and
    without a reset it is the one it started from or the next one around the list.
   */
  lemma IndexStepsOnce(settings: Settings, c: ControllerState, input: Input)
    requires Fetched(c, input).commands != [] && DemandAt(c, input).Some?
    ensures
      var c' := TickOn(settings, c, input);
      var from := (if ResetIndex in input.actions then 0 else c.index) % |c'.commands|;
      c'.index < |c'.commands| && (c'.index == from || c'.index == Next(from, |c'.commands|))
  {
    hide Reached, CommandFor, FlagsAfter;
  }

  lemma AdvancedOnLeg(settings: Settings, c: ControllerState, d: Demand)
    requires OnLeg(c) && c.commands != []
    ensures OnLeg(Advanced(settings, c, d))
  {
  }

  // What a pass does to the state that the following passes depend on.
  lemma TickSummary(settings: Settings, c: ControllerState, input: Input)
    ensures
      var f, c', d := Fetched(c, input), TickOn(settings, c, input), DemandAt(c, input);
      var a := if d.Some? && f.commands != [] then Advanced(settings, f, d.value) else f;
      && c'.index == a.index && c'.hasApproached == a.hasApproached && c'.direction == a.direction
      && c'.commands == f.commands
  {
    hide Reached, CommandFor, FlagsAfter;
  }

  lemma OnLegStep(settings: Settings, c: ControllerState, input: Input)
    requires OnLeg(c) && KeepsList(c, input)
    ensures OnLeg(TickOn(settings, c, input))
  {
    hide TickOn, Reached;
    var f := Fetched(c, input);
    assert OnLeg(f);
    TickSummary(settings, c, input);
    if f.commands != [] && DemandAt(c, input).Some? {
      AdvancedOnLeg(settings, f, DemandAt(c, input).value);
    }
  }

  /** In every state of a run over an unchanged list, the direction is None or that of the current leg. */
  lemma {:induction false} DirectionFollowsLeg(settings: Settings, c: ControllerState, inputs: seq<Input>)
    requires OnLeg(c) && ListUnchanged(c, inputs)
    ensures OnLeg(RunFrom(settings, c, inputs)) && RunFrom(settings, c, inputs).commands == c.commands
    decreases |inputs|
  {
    hide TickOn, OnLeg;
    if inputs != [] {
      OnLegStep(settings, c, inputs[0]);
      TickKeepsCommands(settings, c, inputs[0]);
      assert KeepsList(c, inputs[0]);
      DirectionFollowsLeg(settings, TickOn(settings, c, inputs[0]), inputs[1..]);
    }
  }

  // ----- the old bound outlives an early handoff -----

  // The waypoint at w, protected in the direction of the leg that led to it.
  function CompletedGoal(commands: seq<MotionCommand>, w: nat): Goal
    requires w < |commands|
  {
    Goal(commands[w].position, LegDirection(commands, w))
  }

  // The leg after w has been started early and the drive has not been seen moving along it.
  predicate Awaiting(c: ControllerState, w: nat) {
    && w < |c.commands| && 2 <= |c.commands|
    && c.index == Next(w, |c.commands|)
    && !c.hasApproached
    && c.direction.Some? && c.direction == LegDirection(c.commands, c.index)
  }

  // The pass neither sees the drive move along the new leg nor hands that leg off.
  predicate StillAwaits(settings: Settings, c: ControllerState, input: Input) {
    && ResetIndex !in input.actions
    && KeepsList(c, input)
    && (c.commands != [] && DemandAt(c, input).Some? ==>
          var f, d := Fetched(c, input), DemandAt(c, input).value;
          && !MovingToward(CurrentTarget(f) - d.position, d.velocity, f.direction)
          && !Reached(settings, f, d))
  }

  predicate AllAwait(settings: Settings, c: ControllerState, inputs: seq<Input>)
    decreases |inputs|
  {
    inputs != [] ==>
      && StillAwaits(settings, c, inputs[0])
      && AllAwait(settings, TickOn(settings, c, inputs[0]), inputs[1..])
  }

  // Every clamp of the run protects the goal.
  predicate AllProtect(settings: Settings, c: ControllerState, inputs: seq<Input>, goal: Goal)
    decreases |inputs|
  {
    inputs != [] ==>
      && (Fetched(c, inputs[0]).commands != [] && DemandAt(c, inputs[0]).Some? ==>
            ClampGoal(settings, Fetched(c, inputs[0]), DemandAt(c, inputs[0]).value) == goal)
      && AllProtect(settings, TickOn(settings, c, inputs[0]), inputs[1..], goal)
  }

  /** On the handoff pass itself the clamp protects the waypoint just completed. */
  lemma HandoffProtectsCompleted(settings: Settings, c: ControllerState, input: Input)
    requires Fetched(c, input).commands != [] && DemandAt(c, input).Some?
    requires Reached(settings, Fetched(c, input), DemandAt(c, input).value)
    requires TickOn(settings, c, input).direction.Some?
    ensures
      var f := Fetched(c, input);
      && ClampGoal(settings, f, DemandAt(c, input).value) == CompletedGoal(f.commands, CurrentIndex(f))
      && Awaiting(TickOn(settings, c, input), CurrentIndex(f))
  {
    var f := Fetched(c, input);
  }

  lemma AwaitingGoal(settings: Settings, c: ControllerState, d: Demand, w: nat)
    requires Awaiting(c, w) && !Reached(settings, c, d)
    requires !MovingToward(CurrentTarget(c) - d.position, d.velocity, c.direction)
    ensures ClampGoal(settings, c, d) == CompletedGoal(c.commands, w)
    ensures Advanced(settings, c, d) == c
  {
  }

  lemma AwaitingStep(settings: Settings, c: ControllerState, input: Input, w: nat)
    requires Awaiting(c, w) && StillAwaits(settings, c, input)
    ensures Awaiting(TickOn(settings, c, input), w) && TickOn(settings, c, input).commands == c.commands
    ensures DemandAt(c, input).Some? ==>
      ClampGoal(settings, Fetched(c, input), DemandAt(c, input).value) == CompletedGoal(c.commands, w)
  {
    TickSummary(settings, c, input);
    if DemandAt(c, input).Some? {
      AwaitingGoal(settings, Fetched(c, input), DemandAt(c, input).value, w);
    }
  }

  /**
    And so it does on every later pass, until the drive is seen moving along the new leg or that
    leg is handed off in its turn.
   */
  lemma {:induction false} HandoffKeepsOldBound(settings: Settings, c: ControllerState, inputs: seq<Input>, w: nat)
    requires Awaiting(c, w) && AllAwait(settings, c, inputs)
    ensures AllProtect(settings, c, inputs, CompletedGoal(c.commands, w))
    decreases |inputs|
  {
    hide TickOn, ClampGoal, StillAwaits, Awaiting;
    if inputs != [] {
      AwaitingStep(settings, c, inputs[0], w);
      HandoffKeepsOldBound(settings, TickOn(settings, c, inputs[0]), inputs[1..], w);
    }
  }

  /** To the clamp, a direction of zero is an unknown direction. */
  lemma ZeroDirectionIsUnknown(settings: Settings, d: Demand, target: int, requested: int)
    ensures ClampFor(settings, d, Goal(target, Some(0)), requested) == ClampFor(settings, d, Goal(target, None), requested)
  {
  }

  // ----- standing still -----

  // A pass over the unchanged list that finds the drive ready and at rest.
  predicate AtRest(c: ControllerState, input: Input, position: int) {
    && ResetIndex !in input.actions
    && KeepsList(c, input)
    && DemandAt(c, input).Some?
    && var d := DemandAt(c, input).value; d.position == position && d.velocity == 0 && d.acceleration == 0
  }

  predicate AllAtRest(settings: Settings, c: ControllerState, inputs: seq<Input>, position: int)
    decreases |inputs|
  {
    inputs != [] ==>
      && AtRest(c, inputs[0], position)
      && AllAtRest(settings, TickOn(settings, c, inputs[0]), inputs[1..], position)
  }

  // How many passes of the run step to the next command.
  function Advances(settings: Settings, c: ControllerState, inputs: seq<Input>): nat
    decreases |inputs|
  {
    if inputs == [] then 0
    else
      var f, d := Fetched(c, inputs[0]), DemandAt(c, inputs[0]);
      (if d.Some? && f.commands != [] && Reached(settings, f, d.value) then 1 else 0)
      + Advances(settings, TickOn(settings, c, inputs[0]), inputs[1..])
  }

  // The waypoint k steps ahead.
  function Ahead(c: ControllerState, k: nat): int
    requires k < |c.commands|
  {
    var j := CurrentIndex(c) + k;
    c.commands[if j < |c.commands| then j else j - |c.commands|].position
  }

  predicate Settled(c: ControllerState, position: int) {
    c.commands != [] && !c.hasApproached && CurrentTarget(c) != position
  }

  lemma RestingTick(settings: Settings, c: ControllerState, input: Input, position: int)
    requires c.commands != [] && IsI32(position) && AtRest(c, input, position)
    ensures
      var f, c' := Fetched(c, input), TickOn(settings, c, input);
      && c'.commands == c.commands == f.commands
      && CurrentIndex(f) == CurrentIndex(c)
      && !c'.hasApproached
      && (Reached(settings, f, DemandAt(c, input).value) <==> !Settled(c, position))
      && c'.index == (if Settled(c, position) then CurrentIndex(c) else Next(CurrentIndex(c), |c.commands|))
  {
    hide CommandFor, FlagsAfter, CanRecover;
    var f, d := Fetched(c, input), DemandAt(c, input).value;
    assert PredictPosition(position, 0, 0, Horizon(settings)) == position by {
      assert 0 * Horizon(settings) == 0;
    }
    assert !MovingToward(CurrentTarget(f) - position, 0, f.direction);
  }

  lemma AheadOfNext(c: ControllerState, c': ControllerState, k: nat)
    requires c.commands != [] && c'.commands == c.commands && 0 < k < |c.commands|
    requires c'.index == Next(CurrentIndex(c), |c.commands|)
    ensures Ahead(c', k - 1) == Ahead(c, k)
  {
  }

  lemma {:induction false} AdvancesUpTo(settings: Settings, c: ControllerState, inputs: seq<Input>, position: int, k: nat)
    requires c.commands != [] && IsI32(position) && AllAtRest(settings, c, inputs, position)
    requires !c.hasApproached && k < |c.commands| && Ahead(c, k) != position
    ensures Advances(settings, c, inputs) <= k
    ensures k < |inputs| ==> Settled(RunFrom(settings, c, inputs), position)
    decreases |inputs|
  {
    hide TickOn, Reached;
    if inputs != [] {
      var c' := TickOn(settings, c, inputs[0]);
      RestingTick(settings, c, inputs[0], position);
      if Settled(c, position) {
        SettledStays(settings, c, inputs, position);
      } else {
        AheadOfNext(c, c', k);
        AdvancesUpTo(settings, c', inputs[1..], position, k - 1);
      }
    }
  }

  /** A settled controller stays where it is for as long as the drive rests. */
  lemma {:induction false} SettledStays(settings: Settings, c: ControllerState, inputs: seq<Input>, position: int)
    requires IsI32(position) && AllAtRest(settings, c, inputs, position) && Settled(c, position)
    ensures Advances(settings, c, inputs) == 0
    ensures Settled(RunFrom(settings, c, inputs), position)
    ensures CurrentIndex(RunFrom(settings, c, inputs)) == CurrentIndex(c)
    decreases |inputs|
  {
    hide TickOn, Reached;
    if inputs != [] {
      RestingTick(settings, c, inputs[0], position);
      SettledStays(settings, TickOn(settings, c, inputs[0]), inputs[1..], position);
    }
  }

  // The steps from the current index to index m.
  lemma StepsTo(c: ControllerState, m: nat) returns (k: nat)
    requires m < |c.commands|
    ensures k < |c.commands| && Ahead(c, k) == c.commands[m].position
  {
    var n, i := |c.commands|, CurrentIndex(c);
    if i <= m {
      k := m - i;
    } else {
      k := m + n - i;
    }
  }

  /**
    While the drive rests, the index advances at most once around the list, and it comes to stay at
    a waypoint away from the drive if there is one.
   */
  lemma StandstillSettles(settings: Settings, c: ControllerState, inputs: seq<Input>, position: int, m: nat)
    requires IsI32(position) && AllAtRest(settings, c, inputs, position)
    requires m < |c.commands| && c.commands[m].position != position
    ensures Advances(settings, c, inputs) <= |c.commands|
    ensures |c.commands| < |inputs| ==> Settled(RunFrom(settings, c, inputs), position)
  {
    if inputs != [] {
      var c' := TickOn(settings, c, inputs[0]);
      RestingTick(settings, c, inputs[0], position);
      var k := StepsTo(c', m);
      AdvancesUpTo(settings, c', inputs[1..], position, k);
    }
  }

  // ----- reflection -----

  function MirrorCommand(c: MotionCommand): MotionCommand {
    c.(position := -c.position)
  }

  function MirrorState(c: ControllerState): ControllerState {
    c.(commands := seq(|c.commands|, i requires 0 <= i < |c.commands| => MirrorCommand(c.commands[i])),
       direction := Mirrored(c.direction))
  }

  function MirrorDemand(d: Demand): Demand {
    d.(position := -d.position, velocity := -d.velocity, acceleration := -d.acceleration)
  }

  function MirrorGoal(goal: Goal): Goal {
    Goal(-goal.target, Mirrored(goal.direction))
  }

  // i32::wrapping_neg: the smallest i32 has no positive counterpart.
  function WrappingNeg(x: int): int {
    if x == I32_MIN then x else -x
  }

  lemma WrapIsOdd(x: int)
    ensures WrapI32(-x) == WrappingNeg(WrapI32(x))
  {
    var m := 0x1_0000_0000;
    var r, q := (x - I32_MIN) % m, (x - I32_MIN) / m;
    if r == 0 {
      assert -x - I32_MIN == m * (1 - q);
    } else {
      assert -x - I32_MIN == m * (-q) + (m - r);
    }
  }

  /** The predictors are odd up to the wrap, because Rust's division truncates toward zero. */
  lemma PredictorsAreOdd(settings: Settings, d: Demand)
    ensures PredictPosition(-d.position, -d.velocity, -d.acceleration, Horizon(settings))
         == WrappingNeg(PredictPosition(d.position, d.velocity, d.acceleration, Horizon(settings)))
    ensures PredictVelocity(-d.velocity, -d.acceleration, Horizon(settings))
         == WrappingNeg(PredictVelocity(d.velocity, d.acceleration, Horizon(settings)))
  {
    hide WrapI32;
    var us := Horizon(settings);
    NegatedProduct(d.velocity, us);
    NegatedProduct(d.acceleration, us);
    NegatedProduct(d.acceleration * us, us);
    WrapIsOdd(RawPosition(d.position, d.velocity, d.acceleration, us));
    WrapIsOdd(RawVelocity(d.velocity, d.acceleration, us));
  }

  lemma NegatedProduct(x: int, y: int)
    ensures (-x) * y == -(x * y)
  {
  }

  predicate PositionWraps(settings: Settings, d: Demand) {
    PredictPosition(d.position, d.velocity, d.acceleration, Horizon(settings)) == I32_MIN
  }

  predicate VelocityWraps(settings: Settings, d: Demand) {
    PredictVelocity(d.velocity, d.acceleration, Horizon(settings)) == I32_MIN
  }

  lemma MirrorCross(settings: Settings, target: int, d: Demand)
    requires I32_MIN < target <= I32_MAX && target != d.position
    ensures WillCross(settings, -target, MirrorDemand(d)) == (WillCross(settings, target, d) != PositionWraps(settings, d))
  {
    hide PredictVelocity;
    PredictorsAreOdd(settings, d);
    assert IsI32(PredictPosition(d.position, d.velocity, d.acceleration, Horizon(settings)));
    hide PredictPosition;
  }

  lemma MirrorStop(settings: Settings, d: Demand)
    ensures WillStop(settings, MirrorDemand(d))
         == (WillStop(settings, d) != (VelocityWraps(settings, d) && Opposed(d.acceleration, d.velocity)))
  {
    hide PredictPosition, PredictVelocity;
    PredictorsAreOdd(settings, d);
  }

  // A wrapped prediction decides the arrival test the other way in the mirror image, unless something
  // else decides it first.
  predicate Symmetric(
    settings: Settings, target: int, direction: Option<int>, hasApproached: bool, d: Demand
  ) {
    var toward := MovingToward(target - d.position, d.velocity, direction);
    var canRecover := CanRecover(Abs(target - d.position), d.velocity, settings.overshootMargin, settings.hardMax);
    var crosses := WillCross(settings, target, d) && canRecover;
    var stops := hasApproached && toward && WillStop(settings, d);
    var crossTurns := PositionWraps(settings, d) && canRecover;
    var stopTurns := VelocityWraps(settings, d) && hasApproached && toward && Opposed(d.acceleration, d.velocity);
    || target == d.position
    || (hasApproached && (d.velocity == 0 || !toward))
    || (!crossTurns && !stopTurns)
    || (if !stopTurns then stops else if !crossTurns then crosses else crosses != stops)
  }

  /** The arrival test decides the mirror image alike if and only if it is Symmetric. */
  lemma MirrorReached(settings: Settings, target: int, direction: Option<int>, hasApproached: bool, d: Demand)
    requires I32_MIN < target <= I32_MAX
    ensures
      TargetReached(settings, -target, Mirrored(direction), hasApproached, MirrorDemand(d))
      == TargetReached(settings, target, direction, hasApproached, d)
      <==> Symmetric(settings, target, direction, hasApproached, d)
  {
    hide WillCross, WillStop, PredictPosition, PredictVelocity;
    if target != d.position {
      MirrorCross(settings, target, d);
      MirrorStop(settings, d);
      MirrorToward(target - d.position, d.velocity, direction);
      assert (-d.velocity) * (-d.velocity) == d.velocity * d.velocity;
    }
  }

  lemma MirrorToward(displacement: int, velocity: int, direction: Option<int>)
    ensures MovingToward(-displacement, -velocity, Mirrored(direction)) == MovingToward(displacement, velocity, direction)
  {
  }

  /**
    With i32 feedback that has a mirror image and a loop interval of at most 3 ms only the position can
    wrap so, and the condition is simple.
   */
  lemma SymmetricAtShortIntervals(
    settings: Settings, target: int, direction: Option<int>, hasApproached: bool, d: Demand
  )
    requires settings.intervalUs <= 3_000
    requires IsI32(d.velocity) && d.velocity != I32_MIN && IsI32(d.acceleration)
    ensures Symmetric(settings, target, direction, hasApproached, d)
      <==>
      var toward := MovingToward(target - d.position, d.velocity, direction);
      || !PositionWraps(settings, d)
      || target == d.position
      || !CanRecover(Abs(target - d.position), d.velocity, settings.overshootMargin, settings.hardMax)
      || (hasApproached && (d.velocity == 0 || !toward || WillStop(settings, d)))
  {
    hide PredictPosition, WillCross, CanRecover;
    if Opposed(d.acceleration, d.velocity) {
      SlowingStaysInRange(d.velocity, d.acceleration, Horizon(settings));
    }
  }

  lemma SlowingStaysInRange(velocity: int, acceleration: int, us: nat)
    requires us <= 9_000 && Opposed(acceleration, velocity)
    requires IsI32(velocity) && velocity != I32_MIN && IsI32(acceleration)
    ensures PredictVelocity(velocity, acceleration, us) != I32_MIN
  {
    AbsProduct(acceleration, us);
    MulMono(Abs(acceleration), us, 9_000);
    assert 0 <= Abs(acceleration) * us <= 0x8000_0000 * 9_000;
    var q := Abs(acceleration * us) / 100_000;
    assert 0 <= q <= 0x8000_0000 * 9_000 / 100_000;
    assert I32_MIN < RawVelocity(velocity, acceleration, us) <= I32_MAX;
  }

  lemma MirrorArrival(settings: Settings, c: ControllerState, d: Demand)
    requires c.commands != [] && I32_MIN < CurrentTarget(c) <= I32_MAX
    ensures CurrentTarget(MirrorState(c)) == -CurrentTarget(c)
    ensures Approached(MirrorState(c), MirrorDemand(d)) == Approached(c, d)
    ensures Reached(settings, MirrorState(c), MirrorDemand(d)) == Reached(settings, c, d)
      <==> Symmetric(settings, CurrentTarget(c), c.direction, Approached(c, d), d)
  {
    hide TargetReached, Symmetric;
    MirrorToward(CurrentTarget(c) - d.position, d.velocity, c.direction);
    MirrorReached(settings, CurrentTarget(c), c.direction, Approached(c, d), d);
  }

  lemma MirrorLegDirection(c: ControllerState, index: nat)
    requires index < |c.commands|
    ensures LegDirection(MirrorState(c).commands, index) == Mirrored(LegDirection(c.commands, index))
  {
  }

  lemma MirrorAdvance(settings: Settings, c: ControllerState, d: Demand)
    requires c.commands != [] && Approached(MirrorState(c), MirrorDemand(d)) == Approached(c, d)
    requires Reached(settings, MirrorState(c), MirrorDemand(d)) == Reached(settings, c, d)
    ensures Advanced(settings, MirrorState(c), MirrorDemand(d)) == MirrorState(Advanced(settings, c, d))
    ensures ArrivalGoal(settings, MirrorState(c), MirrorDemand(d)) == MirrorGoal(ArrivalGoal(settings, c, d))
  {
    hide Reached, Approached;
  }

  lemma MirrorEffective(c: ControllerState, fallback: Goal)
    requires c.index < |c.commands|
    ensures
      var m := MirrorState(c);
      EffectiveClampTargetAfterHandoff(m.commands, m.index, m.hasApproached, m.direction, MirrorGoal(fallback))
      == MirrorGoal(EffectiveClampTargetAfterHandoff(c.commands, c.index, c.hasApproached, c.direction, fallback))
  {
    MirrorLegDirection(c, Previous(c.index, |c.commands|));
  }

  function MirrorDriveCommand(command: DriveCommand): DriveCommand {
    if command.VaiGoToPos? then command.(targetPosition := -command.targetPosition) else command
  }

  /**
    Reflecting positions, velocity, acceleration and direction reflects the pass exactly when the arrival
    test is Symmetric: then there is the same advance to the same index, the mirror image of the goal, and
    the same limits and deceleration sent with the mirror image of the target. Otherwise one of the two
    passes hands off and the other does not.
   */
  lemma MirroredPass(settings: Settings, c: ControllerState, d: Demand, motionEnabled: bool)
    requires c.commands != [] && I32_MIN < CurrentTarget(c) <= I32_MAX
    ensures
      Reached(settings, MirrorState(c), MirrorDemand(d)) == Reached(settings, c, d)
      <==> Symmetric(settings, CurrentTarget(c), c.direction, Approached(c, d), d)
    ensures
      Symmetric(settings, CurrentTarget(c), c.direction, Approached(c, d), d) ==>
        && Advanced(settings, MirrorState(c), MirrorDemand(d)) == MirrorState(Advanced(settings, c, d))
        && ClampGoal(settings, MirrorState(c), MirrorDemand(d)) == MirrorGoal(ClampGoal(settings, c, d))
        && CommandFor(settings, MirrorState(c), MirrorDemand(d), motionEnabled)
           == MirrorDriveCommand(CommandFor(settings, c, d, motionEnabled))
  {
    hide Reached, Symmetric, ClampDeceleration;
    MirrorArrival(settings, c, d);
    if Symmetric(settings, CurrentTarget(c), c.direction, Approached(c, d), d) {
      MirrorAdvance(settings, c, d);
      MirrorEffective(Advanced(settings, c, d), ArrivalGoal(settings, c, d));
      var goal := ClampGoal(settings, c, d);
      MirrorClampFor(settings, d, goal, settings.hardMin);
      MirrorClampFor(settings, d, goal, c.commands[Advanced(settings, c, d).index].deceleration);
    }
  }

  lemma MirrorClampFor(settings: Settings, d: Demand, goal: Goal, requested: int)
    ensures ClampFor(settings, MirrorDemand(d), MirrorGoal(goal), requested) == ClampFor(settings, d, goal, requested)
  {
    ClampMirror(d.position, d.velocity, goal.target, requested, goal.direction,
                settings.overshootMargin, settings.hardMin, settings.hardMax);
  }

  /** At the edge of the i32 range the symmetry is lost: the wrapped prediction crosses on one side only. */
  lemma WrappedPredictionBreaksSymmetry() returns (settings: Settings, d: Demand)
    ensures PositionWraps(settings, d)
    ensures TargetReached(settings, 0, None, false, d) && !TargetReached(settings, 0, None, false, MirrorDemand(d))
  {
    settings, d := Settings(2000, 0, 0, I32_MAX), Demand(0, I32_MAX, 17, 0);
  }
}

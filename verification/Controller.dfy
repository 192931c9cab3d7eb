/**
  The motion controller: the state of a drive connection, what one pass of its loop makes of it as
  functions on values, and the class whose methods are proved to compute just that.
 */
module Controller {
  import opened Base
  import opened Kinematics
  import opened Messages

  datatype ControlFlag = SwitchOn | Home | ErrorAcknowledge

  datatype DriveAction = ResetIndex | AckError

  datatype DriveCommands = DriveCommands(powerEnabled: bool, motionEnabled: bool, commands: seq<MotionCommand>)

  // The drive's states, those that the controller does not look at taken together.
  datatype DriveStatus =
    | NotReadyToSwitchOn
    | ReadyToSwitchOn
    | ErrorState(errorCode: nat)
    | OperationEnabled(motionCommandCount: nat, homed: bool)
    | Homing(finished: bool)
    | OtherState(mainState: nat, subState: nat)

  function StatusFrom(raw: nat): DriveStatus {
    var main, sub := raw / 256, raw % 256;
    match main
    case 0 => NotReadyToSwitchOn
    case 2 => ReadyToSwitchOn
    case 4 => ErrorState(sub)
    case 8 => OperationEnabled(sub % 16, sub / 128 == 1)
    case 9 => Homing(sub == 0xF)
    case _ => OtherState(main, sub)
  }

  // telemetryComplete: current, warning flags and error code are there too.
  datatype Response = Response(
    rawState: Option<nat>, actualPosition: Option<int>, demandPosition: Option<int>,
    demandVelocityAndAcceleration: Option<(int, int)>, telemetryComplete: bool)

  datatype DriveCommand =
    | VaiGoToPos(targetPosition: int, maximalVelocity: int, acceleration: int, deceleration: int)
    | VaiStop(deceleration: int)

  datatype CountedCommand = CountedCommand(count: nat, command: DriveCommand)

  // What the controller is started with.
  datatype Settings = Settings(intervalUs: nat, overshootMargin: int, hardMin: int, hardMax: int)

  datatype ControllerState = ControllerState(
    flags: set<ControlFlag>,
    next: Option<CountedCommand>,
    powerEnabled: bool,
    motionEnabled: bool,
    index: nat,
    hasApproached: bool,
    direction: Option<int>,
    commands: seq<MotionCommand>)

  // The part of a response that the next motion command is computed from.
  datatype Demand = Demand(count: nat, position: int, velocity: int, acceleration: int)

  // A waypoint for the clamp to protect, and the direction it was approached in.
  datatype Goal = Goal(target: int, direction: Option<int>)

  // ----- one pass of the loop, on values -----

  function FlagsAfter(flags: set<ControlFlag>, powerEnabled: bool, status: DriveStatus): set<ControlFlag> {
    var f := match status
      case NotReadyToSwitchOn => {}
      case ReadyToSwitchOn => if powerEnabled then {SwitchOn} else flags
      case OperationEnabled(_, false) => flags + {Home}
      case Homing(true) => flags - {Home}
      case _ => flags;
    if powerEnabled then f else f - {SwitchOn}
  }

  // Some demand when the drive is ready to be moved.
  function DemandIn(powerEnabled: bool, response: Response): Option<Demand> {
    if !powerEnabled || response.rawState.None? || response.demandPosition.None?
       || response.demandVelocityAndAcceleration.None? then None
    else
      match StatusFrom(response.rawState.value)
      case OperationEnabled(count, true) =>
        Some(Demand(count, response.demandPosition.value,
                    response.demandVelocityAndAcceleration.value.0,
                    response.demandVelocityAndAcceleration.value.1))
      case _ => None
  }

  predicate SameSign(x: int, y: int) {
    (x > 0 && y > 0) || (x < 0 && y < 0)
  }

  predicate MovingToward(displacement: int, velocity: int, direction: Option<int>) {
    if direction.Some? && direction.value != 0 then SameSign(direction.value, velocity)
    else SameSign(displacement, velocity)
  }

  // The near future in which an arrival counts already: three controller ticks.
  function Horizon(settings: Settings): nat {
    3 * settings.intervalUs
  }

  predicate WillCross(settings: Settings, target: int, d: Demand) {
    var before := target - d.position;
    var after := target - PredictPosition(d.position, d.velocity, d.acceleration, Horizon(settings));
    (before > 0 && after <= 0) || (before < 0 && after >= 0)
  }

  predicate WillStop(settings: Settings, d: Demand) {
    var next := PredictVelocity(d.velocity, d.acceleration, Horizon(settings));
    (d.velocity > 0 && d.acceleration < 0 && next <= 0) || (d.velocity < 0 && d.acceleration > 0 && next >= 0)
  }

  // Whether the target counts as reached. hasApproached already includes this tick.
  predicate TargetReached(
    settings: Settings, target: int, direction: Option<int>, hasApproached: bool, d: Demand
  ) {
    var displacement := target - d.position;
    var toward := MovingToward(displacement, d.velocity, direction);
    || displacement == 0
    || (hasApproached && (d.velocity == 0 || !toward))
    || (WillCross(settings, target, d)
        && CanRecover(Abs(displacement), d.velocity, settings.overshootMargin, settings.hardMax))
    || (hasApproached && toward && WillStop(settings, d))
  }

  // The neighbours of an index around a list.
  function Previous(index: nat, length: nat): nat
    requires index < length
  {
    if index == 0 then length - 1 else index - 1
  }

  function Next(index: nat, length: nat): nat
    requires index < length
  {
    if index + 1 == length then 0 else index + 1
  }

  lemma NeighboursAround(index: nat, length: nat)
    requires index < length
    ensures Previous(index, length) == (index + length - 1) % length
    ensures Next(index, length) == (index + 1) % length
  {
    if index == 0 {
      ModOnce(length - 1, length);
    } else {
      ModOnce(index - 1, length);
      assert index + length - 1 == length + (index - 1);
    }
    if index + 1 == length {
      ModOnce(0, length);
    } else {
      ModOnce(index + 1, length);
    }
  }

  // The index that the pass starts from, brought into a list that may have shrunk.
  function CurrentIndex(c: ControllerState): (i: nat)
    requires c.commands != []
    ensures i < |c.commands| && (c.index < |c.commands| ==> i == c.index)
  {
    c.index % |c.commands|
  }

  function CurrentTarget(c: ControllerState): int
    requires c.commands != []
  {
    c.commands[CurrentIndex(c)].position
  }

  predicate Approached(c: ControllerState, d: Demand)
    requires c.commands != []
  {
    c.hasApproached || MovingToward(CurrentTarget(c) - d.position, d.velocity, c.direction)
  }

  predicate Reached(settings: Settings, c: ControllerState, d: Demand)
    requires c.commands != []
  {
    TargetReached(settings, CurrentTarget(c), c.direction, Approached(c, d), d)
  }

  // The leg from the waypoint before `index` to the one at it.
  function LegDirection(commands: seq<MotionCommand>, index: nat): Option<int>
    requires index < |commands|
  {
    NormalizeDirection(commands[index].position - commands[Previous(index, |commands|)].position)
  }

  // Index, approach flag and direction after the arrival test.
  function Advanced(settings: Settings, c: ControllerState, d: Demand): ControllerState
    requires c.commands != []
  {
    if Reached(settings, c, d) then
      var next := Next(CurrentIndex(c), |c.commands|);
      c.(index := next, hasApproached := false,
         direction := NormalizeDirection(c.commands[next].position - CurrentTarget(c)))
    else
      c.(index := CurrentIndex(c), hasApproached := Approached(c, d))
  }

  // The goal that the arrival test hands on.
  function ArrivalGoal(settings: Settings, c: ControllerState, d: Demand): Goal
    requires c.commands != []
  {
    if Reached(settings, c, d) then
      var prev := c.commands[Previous(CurrentIndex(c), |c.commands|)].position;
      Goal(CurrentTarget(c), Some(Sign(CurrentTarget(c) - prev)))
    else
      Goal(CurrentTarget(c), c.direction)
  }

  // Until the new leg has been approached, the waypoint before it stays the goal.
  function EffectiveClampTargetAfterHandoff(
    commands: seq<MotionCommand>, index: nat, hasApproached: bool, direction: Option<int>, fallback: Goal
  ): Goal
    requires index < |commands|
  {
    if hasApproached || direction.None? || |commands| < 2 then fallback
    else
      var prev := Previous(index, |commands|);
      Goal(commands[prev].position, LegDirection(commands, prev))
  }

  function ClampGoal(settings: Settings, c: ControllerState, d: Demand): Goal
    requires c.commands != []
  {
    var a := Advanced(settings, c, d);
    EffectiveClampTargetAfterHandoff(a.commands, a.index, a.hasApproached, a.direction, ArrivalGoal(settings, c, d))
  }

  function ClampFor(settings: Settings, d: Demand, goal: Goal, requested: int): int {
    ClampDeceleration(d.position, d.velocity, goal.target, requested, goal.direction,
                      settings.overshootMargin, settings.hardMin, settings.hardMax)
  }

  function CommandFor(settings: Settings, c: ControllerState, d: Demand, motionEnabled: bool): DriveCommand
    requires c.commands != []
  {
    var goal := ClampGoal(settings, c, d);
    if !motionEnabled then VaiStop(ClampFor(settings, d, goal, settings.hardMin))
    else
      var command := c.commands[Advanced(settings, c, d).index];
      VaiGoToPos(command.position, command.velocity, command.acceleration,
                 ClampFor(settings, d, goal, command.deceleration))
  }

  function Computed(settings: Settings, c: ControllerState, response: Response): ControllerState {
    if response.rawState.None? then c.(flags := {})
    else
      var c1 := c.(flags := FlagsAfter(c.flags, c.powerEnabled, StatusFrom(response.rawState.value)));
      match DemandIn(c.powerEnabled, response)
      case None => c1
      case Some(d) =>
        var count := (d.count + 1) % 16;
        if c.commands == [] then c1.(next := Some(CountedCommand(count, VaiStop(settings.hardMin))))
        else
          Advanced(settings, c, d).(
            flags := c1.flags,
            next := Some(CountedCommand(count, CommandFor(settings, c, d, c.motionEnabled))))
  }

  // The request goes out.
  function AfterSend(c: ControllerState): ControllerState {
    c.(next := None)
  }

  function AfterActions(c: ControllerState, actions: set<DriveAction>): ControllerState {
    var c1 := if ResetIndex in actions then c.(index := 0, hasApproached := false, direction := None) else c;
    if AckError in actions then c1.(flags := c1.flags + {ErrorAcknowledge}) else c1
  }

  function AfterLock(c: ControllerState, shared: DriveCommands): ControllerState {
    c.(powerEnabled := shared.powerEnabled, motionEnabled := shared.motionEnabled, commands := shared.commands)
  }

  // A whole pass: send, take the actions, try the lock, compute.
  function Tick(
    settings: Settings, c: ControllerState, actions: set<DriveAction>, shared: Option<DriveCommands>, response: Response
  ): ControllerState {
    var taken := AfterActions(AfterSend(c), actions);
    Computed(settings, if shared.Some? then AfterLock(taken, shared.value) else taken, response)
  }

  // The state of a new connection.
  const DISCONNECTED: ControllerState := ControllerState({}, None, false, false, 0, false, None, [])

  function FeedbackFrom(c: ControllerState, response: Response): Option<DriveFeedback> {
    if response.rawState.None? || response.actualPosition.None? || response.demandPosition.None?
       || response.demandVelocityAndAcceleration.None? || !response.telemetryComplete then None
    else
      var driveState := match StatusFrom(response.rawState.value)
        case ReadyToSwitchOn => Off
        case OperationEnabled(_, true) => if c.motionEnabled then Moving else Paused
        case ErrorState(_) => Errored
        case _ => Preparing;
      Some(DriveFeedback(driveState, c.index, response.actualPosition.value, response.demandPosition.value))
  }

  // ----- the objects of the program -----

  /** One-off actions for the drive: the core sets bits, the drive reads and clears them at once. */
  class DriveActions {
    var pending: set<DriveAction>

    constructor ()
      ensures pending == {}
    {
      pending := {};
    }

    method Send(bits: set<DriveAction>)
      modifies this
      ensures pending == old(pending) + bits
    {
      pending := pending + bits;
    }

    method Take() returns (bits: set<DriveAction>)
      modifies this
      ensures bits == old(pending) && pending == {}
    {
      bits := pending;
      pending := {};
    }
  }

  /** The contents of the mutex. */
  class SharedCommands {
    var powerEnabled: bool
    var motionEnabled: bool
    var commands: seq<MotionCommand>

    constructor ()
      ensures Value() == DriveCommands(false, false, [])
    {
      powerEnabled, motionEnabled, commands := false, false, [];
    }

    function Value(): DriveCommands
      reads this
    {
      DriveCommands(powerEnabled, motionEnabled, commands)
    }
  }

  class Connection {
    const settings: Settings
    const actions: DriveActions
    const shared: SharedCommands
    var controlFlags: set<ControlFlag>
    var nextMotionCommand: Option<CountedCommand>
    var powerEnabled: bool
    var motionEnabled: bool
    var activeCommandIndex: nat
    var activeCommandHasApproached: bool
    var activeApproachDirection: Option<int>
    var inputCommands: seq<MotionCommand>

    constructor (settings: Settings, actions: DriveActions, shared: SharedCommands)
      ensures this.settings == settings && this.actions == actions && this.shared == shared
      ensures State() == DISCONNECTED
    {
      this.settings, this.actions, this.shared := settings, actions, shared;
      controlFlags, nextMotionCommand := {}, None;
      powerEnabled, motionEnabled := false, false;
      activeCommandIndex, activeCommandHasApproached, activeApproachDirection := 0, false, None;
      inputCommands := [];
    }

    function State(): ControllerState
      reads this
    {
      ControllerState(controlFlags, nextMotionCommand, powerEnabled, motionEnabled, activeCommandIndex,
                      activeCommandHasApproached, activeApproachDirection, inputCommands)
    }

    /** One pass of the loop. The response is the drive's; lockFree says whether try_lock succeeds. */
    method LoopTick(response: Response, lockFree: bool)
      returns (sent: (set<ControlFlag>, Option<CountedCommand>), feedback: Option<DriveFeedback>)
      modifies this, actions
      ensures sent == (old(controlFlags), old(nextMotionCommand))
      ensures feedback == FeedbackFrom(old(State()), response)
      ensures State() == Tick(settings, old(State()), old(actions.pending),
                              if lockFree then Some(old(shared.Value())) else None, response)
      ensures actions.pending == {}
    {
      hide Computed;
      sent := (controlFlags, nextMotionCommand);
      nextMotionCommand := None;
      feedback := FeedbackFrom(State(), response);

      var taken := actions.Take();
      if ResetIndex in taken {
        activeCommandIndex := 0;
        activeCommandHasApproached := false;
        activeApproachDirection := None;
      }
      if AckError in taken {
        controlFlags := controlFlags + {ErrorAcknowledge};
      }
      if lockFree {
        powerEnabled := shared.powerEnabled;
        motionEnabled := shared.motionEnabled;
        inputCommands := shared.commands;
      }
      ComputeNextRequest(response);
    }

    method ComputeNextRequest(response: Response)
      modifies this
      ensures State() == Computed(settings, old(State()), response)
    {
      hide Reached, ClampGoal, ClampFor;
      if response.rawState.None? {
        controlFlags := {};
        return;
      }
      var status := StatusFrom(response.rawState.value);
      match status {
        case NotReadyToSwitchOn => controlFlags := {};
        case ReadyToSwitchOn => if powerEnabled { controlFlags := {SwitchOn}; }
        case OperationEnabled(_, false) => controlFlags := controlFlags + {Home};
        case Homing(true) => controlFlags := controlFlags - {Home};
        case _ =>
      }
      if !powerEnabled {
        controlFlags := controlFlags - {SwitchOn};
        return;
      }
      if !(status.OperationEnabled? && status.homed) || response.demandPosition.None?
         || response.demandVelocityAndAcceleration.None? {
        return;
      }
      var d := Demand(status.motionCommandCount, response.demandPosition.value,
                      response.demandVelocityAndAcceleration.value.0,
                      response.demandVelocityAndAcceleration.value.1);
      var nextCommandCount := (d.count + 1) % 16;
      if |inputCommands| == 0 {
        nextMotionCommand := Some(CountedCommand(nextCommandCount, VaiStop(settings.hardMin)));
        return;
      }
      var goal := SelectCommand(d);
      ComputeMotionCommand(nextCommandCount, d, goal);
    }

    // The arrival test, the step to the next command, and the waypoint that the clamp protects.
    method SelectCommand(d: Demand) returns (goal: Goal)
      requires inputCommands != []
      modifies this`activeCommandIndex, this`activeCommandHasApproached, this`activeApproachDirection
      ensures State() == Advanced(settings, old(State()), d)
      ensures goal == ClampGoal(settings, old(State()), d)
    {
      activeCommandIndex := activeCommandIndex % |inputCommands|;
      NeighboursAround(activeCommandIndex, |inputCommands|);
      var currentTarget := inputCommands[activeCommandIndex].position;
      var approachDirection := activeApproachDirection;
      var reached := ObserveArrival(currentTarget, d);

      goal := Goal(currentTarget, approachDirection);
      if reached {
        var prevTarget := inputCommands[(activeCommandIndex + |inputCommands| - 1) % |inputCommands|].position;
        activeCommandIndex := (activeCommandIndex + 1) % |inputCommands|;
        activeCommandHasApproached := false;
        activeApproachDirection :=
          NormalizeDirection(inputCommands[activeCommandIndex].position - currentTarget);
        goal := Goal(currentTarget, Some(Sign(currentTarget - prevTarget)));
      }
      goal := EffectiveClampTargetAfterHandoff(
        inputCommands, activeCommandIndex, activeCommandHasApproached, activeApproachDirection, goal);
    }

    method ComputeMotionCommand(nextCommandCount: nat, d: Demand, goal: Goal)
      requires activeCommandIndex < |inputCommands|
      modifies this`nextMotionCommand
      ensures
        var command := inputCommands[activeCommandIndex];
        nextMotionCommand == Some(CountedCommand(nextCommandCount,
          if motionEnabled then
            VaiGoToPos(command.position, command.velocity, command.acceleration,
                       ClampFor(settings, d, goal, command.deceleration))
          else VaiStop(ClampFor(settings, d, goal, settings.hardMin))))
    {
      if !motionEnabled {
        var deceleration := ClampFor(settings, d, goal, settings.hardMin);
        nextMotionCommand := Some(CountedCommand(nextCommandCount, VaiStop(deceleration)));
        return;
      }
      var inputCommand := inputCommands[activeCommandIndex];
      var deceleration := ClampFor(settings, d, goal, inputCommand.deceleration);
      nextMotionCommand := Some(CountedCommand(nextCommandCount,
        VaiGoToPos(inputCommand.position, inputCommand.velocity, inputCommand.acceleration, deceleration)));
    }

    // The arrival test, which also records that the drive was seen moving toward its target.
    method ObserveArrival(currentTarget: int, d: Demand) returns (reached: bool)
      modifies this`activeCommandHasApproached
      ensures activeCommandHasApproached
           == (old(activeCommandHasApproached)
               || MovingToward(currentTarget - d.position, d.velocity, activeApproachDirection))
      ensures reached
           == TargetReached(settings, currentTarget, activeApproachDirection, activeCommandHasApproached, d)
    {
      var displacement := currentTarget - d.position;
      var dist := Abs(displacement);
      var movingToward := MovingToward(displacement, d.velocity, activeApproachDirection);
      if movingToward {
        activeCommandHasApproached := true;
      }
      var nextPosition := PredictPosition(d.position, d.velocity, d.acceleration, Horizon(settings));
      var distanceAfter := currentTarget - nextPosition;
      var crosses := (displacement > 0 && distanceAfter <= 0) || (displacement < 0 && distanceAfter >= 0);

      var nextV := PredictVelocity(d.velocity, d.acceleration, Horizon(settings));
      var deceleratingToward := movingToward
        && ((d.velocity > 0 && d.acceleration < 0) || (d.velocity < 0 && d.acceleration > 0));
      var willStopOrReverse := deceleratingToward
        && ((d.velocity > 0 && nextV <= 0) || (d.velocity < 0 && nextV >= 0));
      var canRecover := CanRecover(dist, d.velocity, settings.overshootMargin, settings.hardMax);
      var predictedCrossing := (crosses && canRecover) || (activeCommandHasApproached && willStopOrReverse);

      if dist == 0 {
        reached := true;
      } else if activeCommandHasApproached && (d.velocity == 0 || !movingToward) {
        reached := true;
      } else {
        reached := predictedCrossing;
      }
    }
  }
}

/**
  The manager of the handheld controller: it turns encoder movements and button events into messages
  to the core, keeps its own copy of the two motion commands, and sends display variables on when
  they have changed.
 */
module HidUi {
  import opened Base
  import opened Messages
  import opened HidMessages

  datatype Ui = Ui(first: MotionCommand, second: MotionCommand, holdingStart: bool)

  function CommandsOf(ui: Ui): (r: seq<MotionCommand>)
    ensures |r| == 2
  {
    [ui.first, ui.second]
  }

  const DEFAULT_COMMAND: MotionCommand := MotionCommand(0, 1_000_000, 50_000, 50_000)

  // What an input leads to.
  datatype Outcome = Outcome(ui: Ui, messages: seq<ClientMessage>)

  // An encoder movement, scaled quadratically for positions and velocities, cubically for accelerations.
  function Quadratic(delta: i8): int {
    delta * Abs(delta) * 10_000
  }

  function Cubic(delta: i8): int {
    delta * Abs(delta) * Abs(delta) * 1_000
  }

  // saturating_add, then clamp
  function Shifted(value: int, delta: int, limit: int): int
    requires 0 <= limit
  {
    Clamp(SaturateI32(value + delta), 0, limit)
  }

  function PositionUpdate(index: nat, position: int): ClientMessage {
    UpdateCommand(0, CommandUpdate(index, MotionCommandFields(Some(position), None, None, None)))
  }

  function VelocityUpdate(index: nat, velocity: int): ClientMessage {
    UpdateCommand(0, CommandUpdate(index, MotionCommandFields(None, Some(velocity), None, None)))
  }

  function AccelerationUpdate(index: nat, acceleration: int, deceleration: int): ClientMessage {
    UpdateCommand(0, CommandUpdate(index, MotionCommandFields(None, None, Some(acceleration), Some(deceleration))))
  }

  // Encoder 0 moves the start of the stroke, which pushes the end along, or takes it along when held.
  function TurnStart(ui: Ui, delta: i8, limits: SystemLimits): Outcome
    requires ValidLimits(limits)
  {
    var start := Shifted(ui.first.position, Quadratic(delta), limits.position);
    var end :=
      if ui.holdingStart then Shifted(ui.second.position, Quadratic(delta), limits.position)
      else Max(start, ui.second.position);
    Outcome(
      ui.(first := ui.first.(position := start), second := ui.second.(position := end)),
      [PositionUpdate(0, start)]
      + (if ui.holdingStart || start > ui.second.position then [PositionUpdate(1, end)] else []))
  }

  // Encoder 1 moves the end.
  function TurnEnd(ui: Ui, delta: i8, limits: SystemLimits): Outcome
    requires ValidLimits(limits)
  {
    var end := Shifted(ui.second.position, Quadratic(delta), limits.position);
    var start :=
      if ui.holdingStart then Shifted(ui.first.position, Quadratic(delta), limits.position)
      else Min(ui.first.position, end);
    Outcome(
      ui.(first := ui.first.(position := start), second := ui.second.(position := end)),
      [PositionUpdate(1, end)]
      + (if ui.holdingStart || end < ui.first.position then [PositionUpdate(0, start)] else []))
  }

  function TurnVelocity(ui: Ui, delta: i8, limits: SystemLimits): Outcome
    requires ValidLimits(limits)
  {
    var v := Shifted(ui.first.velocity, Quadratic(delta), limits.velocity);
    Outcome(ui.(first := ui.first.(velocity := v), second := ui.second.(velocity := v)),
            [VelocityUpdate(0, v), VelocityUpdate(1, v)])
  }

  function TurnAcceleration(ui: Ui, delta: i8, limits: SystemLimits): Outcome
    requires ValidLimits(limits)
  {
    var a := Shifted(ui.first.acceleration, Cubic(delta), limits.acceleration);
    var d := Clamp(a, 0, limits.deceleration);
    Outcome(ui.(first := ui.first.(acceleration := a, deceleration := d),
                second := ui.second.(acceleration := a, deceleration := d)),
            [AccelerationUpdate(0, a, d), AccelerationUpdate(1, a, d)])
  }

  function Turn(ui: Ui, encoder: nat, delta: i8, limits: SystemLimits): Outcome
    requires ValidLimits(limits)
  {
    if delta == 0 then Outcome(ui, [])
    else
      match encoder
      case 0 => TurnStart(ui, delta, limits)
      case 1 => TurnEnd(ui, delta, limits)
      case 2 => TurnVelocity(ui, delta, limits)
      case 3 => TurnAcceleration(ui, delta, limits)
      case _ => Outcome(ui, [])
  }

  // The first n encoders, in order.
  function TurnAll(ui: Ui, deltas: seq<i8>, limits: SystemLimits, n: nat): Outcome
    requires ValidLimits(limits) && n <= |deltas|
  {
    if n == 0 then Outcome(ui, [])
    else
      var before := TurnAll(ui, deltas, limits, n - 1);
      var now := Turn(before.ui, n - 1, deltas[n - 1], limits);
      Outcome(now.ui, before.messages + now.messages)
  }

  function Click(ui: Ui, encoder: byte, driveState: DriveState): Outcome {
    match encoder
    case 0 =>
      Outcome(ui, match driveState
                  case Off => [SetDrivePower(0, true)]
                  case Preparing | Paused | Moving => [SetDrivePower(0, false)]
                  case Errored => [AcknowledgeError(0)]
                  case Disconnected => [])
    case 1 =>
      Outcome(ui, match driveState
                  case Paused => [SetMotionState(0, Resume)]
                  case Moving => [SetMotionState(0, Pause)]
                  case _ => [])
    case 3 =>
      var reset := ui.(first := DEFAULT_COMMAND, second := DEFAULT_COMMAND);
      Outcome(reset, [UpsertCommandSet(0, None, None, CommandsOf(reset))])
    case _ => Outcome(ui, [])
  }

  function React(ui: Ui, event: HidInputEvent, driveState: DriveState): Outcome {
    match event
    case ButtonClick(encoder) => Click(ui, encoder, driveState)
    case ButtonHoldStart(encoder) => Outcome(if encoder == 0 then ui.(holdingStart := true) else ui, [])
    case ButtonHoldEnd(encoder) => Outcome(if encoder == 0 then ui.(holdingStart := false) else ui, [])
    case _ => Outcome(ui, [])
  }

  function ReactAll(ui: Ui, events: seq<HidInputEvent>, driveState: DriveState, n: nat): Outcome
    requires n <= |events|
  {
    if n == 0 then Outcome(ui, [])
    else
      var before := ReactAll(ui, events, driveState, n - 1);
      var now := React(before.ui, events[n - 1], driveState);
      Outcome(now.ui, before.messages + now.messages)
  }

  // A button event that resets the device adds a variable entry in the order of the events.
  function Resets(events: seq<HidInputEvent>, n: nat): seq<VariableEntry>
    requires n <= |events|
  {
    if n == 0 then []
    else Resets(events, n - 1) + (if events[n - 1] == ButtonClick(2) then [Hardware(Reset)] else [])
  }

  // Without write access the report only leads to taking it and publishing the own commands.
  function TakeOver(ui: Ui): Outcome {
    Outcome(ui, [RequestWriteAccess(0), UpsertCommandSet(0, None, None, CommandsOf(ui))])
  }

  function Processed(ui: Ui, report: InputReport, limits: SystemLimits, state: CoreState): Outcome
    requires ValidLimits(limits)
  {
    if state.writeAccessHolder != Some(Hid) then TakeOver(ui)
    else
      var turned := TurnAll(ui, report.encoderDeltas, limits, |report.encoderDeltas|);
      var reacted := ReactAll(turned.ui, report.events, state.feedback.driveState, |report.events|);
      Outcome(reacted.ui, turned.messages + reacted.messages)
  }

  // ----- the variables -----

  // The key of an entry in the cache: hardware entries have their own index space.
  function VariableKey(entry: VariableEntry): nat {
    match entry
    case FixedPoint(index, _, _) => index
    case ShortString(index, _) => index
    case Hardware(LedRingValue(ring, _)) => if ring < 0x80 then 0x80 + ring else ring
    case Hardware(Reset) => 0x85
    case Hardware(SleepLevel(_)) => 0x86
  }

  datatype Filtered = Filtered(cache: map<nat, VariableEntry>, kept: seq<VariableEntry>)

  predicate Unchanged(cache: map<nat, VariableEntry>, entry: VariableEntry) {
    VariableKey(entry) in cache && cache[VariableKey(entry)] == entry
  }

  // The entries, in order, that differ from the last one of their key.
  function Filter(cache: map<nat, VariableEntry>, entries: seq<VariableEntry>, n: nat): Filtered
    requires n <= |entries|
  {
    if n == 0 then Filtered(cache, [])
    else
      var before := Filter(cache, entries, n - 1);
      var entry := entries[n - 1];
      if Unchanged(before.cache, entry) then before
      else Filtered(before.cache[VariableKey(entry) := entry], before.kept + [entry])
  }

  // ----- the object of the program -----

  class UiManager {
    const activeScreen: ScreenSpec
    var motionCommands: seq<MotionCommand>
    var lastSentVariables: map<nat, VariableEntry>
    var holdingStart: bool
    var sent: seq<OutputReport>

    constructor (screen: ScreenSpec)
      ensures activeScreen == screen && sent == [] && lastSentVariables == map[]
      ensures Valid() && View() == Ui(DEFAULT_COMMAND, DEFAULT_COMMAND, false)
    {
      activeScreen := screen;
      motionCommands := [DEFAULT_COMMAND, DEFAULT_COMMAND];
      lastSentVariables, holdingStart, sent := map[], false, [];
    }

    predicate Valid()
      reads this
    {
      |motionCommands| == 2
    }

    function View(): Ui
      requires Valid()
      reads this
    {
      Ui(motionCommands[0], motionCommands[1], holdingStart)
    }

    method ProcessCoreMessage(message: CoreMessage)
      modifies this`sent, this`lastSentVariables
      ensures message.Connected? ==> sent == old(sent) + [Screen(activeScreen)] && lastSentVariables == map[]
      ensures !message.Connected? ==> sent == old(sent) && lastSentVariables == old(lastSentVariables)
    {
      if message.Connected? {
        sent := sent + [Screen(activeScreen)];
        lastSentVariables := map[];
      }
    }

    /** `display` holds the entries computed from the state for the displays and the LED rings. */
    method ProcessInputReport(
      report: InputReport, limits: SystemLimits, state: CoreState, display: seq<VariableEntry>
    )
      returns (messages: seq<ClientMessage>)
      requires Valid() && ValidLimits(limits)
      modifies this
      ensures Valid()
      ensures Outcome(View(), messages) == Processed(old(View()), report, limits, state)
      ensures
        var entries := Resets(report.events, |report.events|) + display;
        var filtered := Filter(old(lastSentVariables), entries, |entries|);
        if state.writeAccessHolder != Some(Hid) then
          sent == old(sent) && lastSentVariables == old(lastSentVariables)
        else
          && lastSentVariables == filtered.cache
          && sent == old(sent) + if filtered.kept == [] then [] else [VariableUpdate(filtered.kept)]
    {
      if state.writeAccessHolder != Some(Hid) {
        assert motionCommands == CommandsOf(View());
        return [RequestWriteAccess(0), UpsertCommandSet(0, None, None, motionCommands)];
      }
      messages := [];
      for i := 0 to |report.encoderDeltas|
        modifies this`motionCommands
        invariant Valid()
        invariant Outcome(View(), messages) == TurnAll(old(View()), report.encoderDeltas, limits, i)
      {
        var more := TurnOne(i, report.encoderDeltas[i], limits);
        messages := messages + more;
      }
      var variables: seq<VariableEntry> := [];
      ghost var turned := Outcome(View(), messages);
      for i := 0 to |report.events|
        modifies this`motionCommands, this`holdingStart
        invariant Valid()
        invariant View() == ReactAll(turned.ui, report.events, state.feedback.driveState, i).ui
        invariant messages
               == turned.messages + ReactAll(turned.ui, report.events, state.feedback.driveState, i).messages
        invariant variables == Resets(report.events, i)
      {
        if report.events[i] == ButtonClick(2) {
          variables := variables + [Hardware(Reset)];
        }
        var more := ReactOne(report.events[i], state.feedback.driveState);
        messages := messages + more;
      }
      variables := variables + display;
      SendChanged(variables);
    }

    method TurnOne(i: nat, delta: i8, limits: SystemLimits) returns (messages: seq<ClientMessage>)
      requires Valid() && ValidLimits(limits)
      modifies this`motionCommands
      ensures Valid() && Outcome(View(), messages) == Turn(old(View()), i, delta, limits)
    {
      messages := [];
      if delta == 0 {
        return;
      }
      if i == 0 {
        messages := TurnStroke(0, delta, limits);
      } else if i == 1 {
        messages := TurnStroke(1, delta, limits);
      } else if i == 2 {
        var velocity := Shifted(motionCommands[0].velocity, Quadratic(delta), limits.velocity);
        motionCommands := [motionCommands[0].(velocity := velocity), motionCommands[1].(velocity := velocity)];
        messages := [VelocityUpdate(0, velocity), VelocityUpdate(1, velocity)];
      } else if i == 3 {
        var acceleration := Shifted(motionCommands[0].acceleration, Cubic(delta), limits.acceleration);
        var deceleration := Clamp(acceleration, 0, limits.deceleration);
        motionCommands := [
          motionCommands[0].(acceleration := acceleration, deceleration := deceleration),
          motionCommands[1].(acceleration := acceleration, deceleration := deceleration)];
        messages := [AccelerationUpdate(0, acceleration, deceleration), AccelerationUpdate(1, acceleration, deceleration)];
      }
    }

    // Move one end of the stroke; the other one is pushed, or taken along while the start is held.
    method TurnStroke(i: nat, delta: i8, limits: SystemLimits) returns (messages: seq<ClientMessage>)
      requires Valid() && ValidLimits(limits) && i < 2
      modifies this`motionCommands
      ensures Valid()
      ensures Outcome(View(), messages)
           == if i == 0 then TurnStart(old(View()), delta, limits) else TurnEnd(old(View()), delta, limits)
    {
      var moved := Shifted(motionCommands[i].position, Quadratic(delta), limits.position);
      motionCommands := motionCommands[i := motionCommands[i].(position := moved)];
      messages := [PositionUpdate(i, moved)];
      if holdingStart || motionCommands[0].position > motionCommands[1].position {
        var other := 1 - i;
        var dragged := moved;
        if holdingStart {
          dragged := Shifted(motionCommands[other].position, Quadratic(delta), limits.position);
        }
        motionCommands := motionCommands[other := motionCommands[other].(position := dragged)];
        messages := messages + [PositionUpdate(other, dragged)];
      }
    }

    method ReactOne(event: HidInputEvent, driveState: DriveState) returns (messages: seq<ClientMessage>)
      requires Valid()
      modifies this`motionCommands, this`holdingStart
      ensures Valid() && Outcome(View(), messages) == React(old(View()), event, driveState)
    {
      messages := [];
      match event {
        case ButtonClick(encoder) =>
          if encoder == 0 {
            match driveState {
              case Off => messages := [SetDrivePower(0, true)];
              case Preparing | Paused | Moving => messages := [SetDrivePower(0, false)];
              case Errored => messages := [AcknowledgeError(0)];
              case Disconnected =>
            }
          } else if encoder == 1 {
            match driveState {
              case Paused => messages := [SetMotionState(0, Resume)];
              case Moving => messages := [SetMotionState(0, Pause)];
              case _ =>
            }
          } else if encoder == 3 {
            motionCommands := [DEFAULT_COMMAND, DEFAULT_COMMAND];
            messages := [UpsertCommandSet(0, None, None, motionCommands)];
          }
        case ButtonHoldStart(encoder) => if encoder == 0 { holdingStart := true; }
        case ButtonHoldEnd(encoder) => if encoder == 0 { holdingStart := false; }
        case _ =>
      }
    }

    /** Sends the entries that have changed, in one report, and remembers them. */
    method SendChanged(variables: seq<VariableEntry>)
      modifies this`lastSentVariables, this`sent
      ensures
        var filtered := Filter(old(lastSentVariables), variables, |variables|);
        && lastSentVariables == filtered.cache
        && sent == old(sent) + if filtered.kept == [] then [] else [VariableUpdate(filtered.kept)]
    {
      var kept: seq<VariableEntry> := [];
      for i := 0 to |variables|
        modifies this`lastSentVariables
        invariant Filtered(lastSentVariables, kept) == Filter(old(lastSentVariables), variables, i)
      {
        var key := VariableKey(variables[i]);
        if !(key in lastSentVariables && lastSentVariables[key] == variables[i]) {
          lastSentVariables := lastSentVariables[key := variables[i]];
          kept := kept + [variables[i]];
        }
      }
      if |kept| != 0 {
        sent := sent + [VariableUpdate(kept)];
      }
    }
  }
}

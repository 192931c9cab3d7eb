/** The messages between controllers and the core, and the motion commands they carry. */
module Messages {
  import opened Base

  datatype ControllerId = Hid | WebSocket(token: nat)

  datatype DriveState = Disconnected | Off | Preparing | Paused | Moving | Errored

  datatype MotionCommand = MotionCommand(position: int, velocity: int, acceleration: int, deceleration: int)

  datatype MotionCommandFields = MotionCommandFields(
    position: Option<int>, velocity: Option<int>, acceleration: Option<int>, deceleration: Option<int>)

  datatype CommandUpdate = CommandUpdate(index: nat, fields: MotionCommandFields)

  // The default values of a Rust i32 are non-negative limits: `clamp` panics on a negative one.
  datatype SystemLimits = SystemLimits(position: int, velocity: int, acceleration: int, deceleration: int)

  predicate ValidLimits(limits: SystemLimits) {
    && 0 <= limits.position <= I32_MAX && 0 <= limits.velocity <= I32_MAX
    && 0 <= limits.acceleration <= I32_MAX && 0 <= limits.deceleration <= I32_MAX
  }

  datatype MotionAction = Start | Pause | Resume | Stop

  datatype ClientMessage =
    | RequestWriteAccess(seqNo: nat)
    | ReleaseWriteAccess(seqNo: nat)
    | GetState(seqNo: nat)
    | GetCommandSet(seqNo: nat, name: Option<string>)
    | UpsertCommandSet(seqNo: nat, name: Option<string>, baseVersion: Option<nat>, commands: seq<MotionCommand>)
    | UpdateCommand(seqNo: nat, update: CommandUpdate)
    | DeleteCommandSet(seqNo: nat, name: Option<string>, baseVersion: Option<nat>)
    | ListSavedSets(seqNo: nat)
    | SetDrivePower(seqNo: nat, enabled: bool)
    | SetMotionState(seqNo: nat, action: MotionAction)
    | AcknowledgeError(seqNo: nat)

  datatype AckFailureReason = NotWriter | NotFound | OutOfRange | InvalidState

  // What the core knows of the drive, and what it tells its controllers.
  datatype DriveFeedback = DriveFeedback(
    driveState: DriveState, activeCommandIndex: nat, actualPosition: int, demandPosition: int)

  datatype CoreState = CoreState(
    feedback: DriveFeedback, commandSetVersion: nat, writeAccessHolder: Option<ControllerId>)

  datatype CoreMessage =
    | Connected(controllerId: ControllerId, limits: SystemLimits, state: CoreState)
    | Ack(seqNo: nat, failure: Option<AckFailureReason>)
    | WriteAccessResult(seqNo: nat, granted: bool, holder: Option<ControllerId>)
    | CommandSet(seqNo: nat, name: Option<string>, version: nat, commands: seq<MotionCommand>)
    | CommandResult(seqNo: nat, success: bool, version: nat)
    | SavedSetList(seqNo: nat, versions: map<string, nat>)
    | State(reply: Option<nat>, state: CoreState)
    | CommandSetChanged(version: nat, update: Option<CommandUpdate>)
    | WriteAccessChanged(holder: Option<ControllerId>, previousHolder: Option<ControllerId>)

  function Override(current: int, field: Option<int>): int {
    if field.Some? then field.value else current
  }

  // The command with every given field replaced.
  function Applied(command: MotionCommand, fields: MotionCommandFields): MotionCommand {
    MotionCommand(
      Override(command.position, fields.position),
      Override(command.velocity, fields.velocity),
      Override(command.acceleration, fields.acceleration),
      Override(command.deceleration, fields.deceleration))
  }

  // A field that is given has the given value afterwards, every other one the value from before.
  predicate TakesFields(before: MotionCommand, fields: MotionCommandFields, after: MotionCommand) {
    && (match fields.position case Some(x) => after.position == x case None => after.position == before.position)
    && (match fields.velocity case Some(x) => after.velocity == x case None => after.velocity == before.velocity)
    && (match fields.acceleration
        case Some(x) => after.acceleration == x
        case None => after.acceleration == before.acceleration)
    && (match fields.deceleration
        case Some(x) => after.deceleration == x
        case None => after.deceleration == before.deceleration)
  }

  /** Updates the fields one by one, and reports a change exactly when the command is another one. */
  method ApplyFields(command: MotionCommand, fields: MotionCommandFields)
    returns (result: MotionCommand, changed: bool)
    ensures result == Applied(command, fields) && TakesFields(command, fields, result)
    ensures changed <==> result != command
  {
    result, changed := command, false;
    if fields.position.Some? {
      if result.position != fields.position.value {
        result, changed := result.(position := fields.position.value), true;
      }
    }
    if fields.velocity.Some? {
      if result.velocity != fields.velocity.value {
        result, changed := result.(velocity := fields.velocity.value), true;
      }
    }
    if fields.acceleration.Some? {
      if result.acceleration != fields.acceleration.value {
        result, changed := result.(acceleration := fields.acceleration.value), true;
      }
    }
    if fields.deceleration.Some? {
      if result.deceleration != fields.deceleration.value {
        result, changed := result.(deceleration := fields.deceleration.value), true;
      }
    }
  }

  // An update as a replica of the list carries it out.
  function Updated(commands: seq<MotionCommand>, update: CommandUpdate): seq<MotionCommand>
    requires update.index < |commands|
  {
    commands[update.index := Applied(commands[update.index], update.fields)]
  }
}

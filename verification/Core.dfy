/**
  The core: it arbitrates write access, keeps the versioned command sets and publishes the active one
  to the drive. Each message is handled in program order: private state, then at most one section
  under the mutex, then at most one write of the action bits, then the messages sent.
 */
module Core {
  import opened Base
  import opened Messages
  import opened Controller

  // The state private to the core's thread.
  datatype CoreData = CoreData(
    limits: SystemLimits,
    state: CoreState,
    version: nat,
    active: seq<MotionCommand>,
    saved: map<string, (nat, seq<MotionCommand>)>)

  datatype LockSection =
    | DisableDrive
    | SetPower(enabled: bool)
    | SetMotion(enabled: bool)
    | Publish(commands: seq<MotionCommand>)

  // None addresses every controller.
  datatype Post = Post(destination: Option<ControllerId>, message: CoreMessage)

  datatype Step = Step(core: CoreData, section: Option<LockSection>, actions: set<DriveAction>, posts: seq<Post>)

  datatype Event =
    | ControllerConnected(id: ControllerId)
    | ControllerDisconnected(id: ControllerId)
    | FromController(id: ControllerId, message: ClientMessage)
    | DriveStateUpdated(feedback: DriveFeedback)

  function ClampCommand(limits: SystemLimits, c: MotionCommand): MotionCommand
    requires ValidLimits(limits)
  {
    MotionCommand(
      Clamp(c.position, 0, limits.position),
      Clamp(c.velocity, 0, limits.velocity),
      Clamp(c.acceleration, 0, limits.acceleration),
      Clamp(c.deceleration, 0, limits.deceleration))
  }

  function ClampAll(limits: SystemLimits, commands: seq<MotionCommand>): (r: seq<MotionCommand>)
    requires ValidLimits(limits)
    ensures |r| == |commands|
  {
    seq(|commands|, i requires 0 <= i < |commands| => ClampCommand(limits, commands[i]))
  }

  function InSection(shared: DriveCommands, section: LockSection): DriveCommands {
    match section
    case DisableDrive => shared.(powerEnabled := false, motionEnabled := false)
    case SetPower(enabled) => shared.(powerEnabled := enabled, motionEnabled := enabled && shared.motionEnabled)
    case SetMotion(enabled) => shared.(motionEnabled := enabled)
    case Publish(commands) => shared.(commands := commands)
  }

  function Answer(core: CoreData, id: ControllerId, message: CoreMessage): Step {
    Step(core, None, {}, [Post(Some(id), message)])
  }

  function Refuse(core: CoreData, id: ControllerId, seqNo: nat, reason: AckFailureReason): Step {
    Answer(core, id, Ack(seqNo, Some(reason)))
  }

  predicate IsWriter(core: CoreData, id: ControllerId) {
    core.state.writeAccessHolder == Some(id)
  }

  predicate VersionMatches(baseVersion: Option<nat>, version: nat) {
    baseVersion.None? || baseVersion == Some(version)
  }

  function WithHolder(core: CoreData, holder: Option<ControllerId>): CoreData {
    core.(state := core.state.(writeAccessHolder := holder))
  }

  // The active set under its next version, which is published with it.
  function WithActive(core: CoreData, commands: seq<MotionCommand>): CoreData {
    core.(version := core.version + 1, active := commands,
          state := core.state.(commandSetVersion := core.version + 1))
  }

  function HandleRequestAccess(core: CoreData, id: ControllerId, seqNo: nat): Step {
    var previous := core.state.writeAccessHolder;
    if core.state.feedback.driveState == Off || previous.None? || id == Hid then
      Step(WithHolder(core, Some(id)), None, {},
           (if previous != Some(id) then [Post(None, WriteAccessChanged(Some(id), previous))] else [])
           + [Post(Some(id), WriteAccessResult(seqNo, true, Some(id)))])
    else Answer(core, id, WriteAccessResult(seqNo, false, previous))
  }

  function HandleReleaseAccess(core: CoreData, id: ControllerId, seqNo: nat): Step {
    if IsWriter(core, id) then
      Step(WithHolder(core, None), None, {},
           [Post(None, WriteAccessChanged(None, Some(id))), Post(Some(id), Ack(seqNo, None))])
    else Refuse(core, id, seqNo, NotWriter)
  }

  function HandleGetSet(core: CoreData, id: ControllerId, seqNo: nat, name: Option<string>): Step {
    if name.None? then Answer(core, id, CommandSet(seqNo, name, core.version, core.active))
    else if name.value in core.saved then
      Answer(core, id, CommandSet(seqNo, name, core.saved[name.value].0, core.saved[name.value].1))
    else Refuse(core, id, seqNo, NotFound)
  }

  function HandleUpsertSaved(
    core: CoreData, id: ControllerId, seqNo: nat, name: string, baseVersion: Option<nat>, commands: seq<MotionCommand>
  ): Step {
    if name !in core.saved then
      Answer(core.(saved := core.saved[name := (1, commands)]), id, CommandResult(seqNo, true, 1))
    else
      var version := core.saved[name].0;
      if VersionMatches(baseVersion, version) then
        Answer(core.(saved := core.saved[name := (version + 1, commands)]), id, CommandResult(seqNo, true, version + 1))
      else Answer(core, id, CommandResult(seqNo, false, version))
  }

  // A new list for the active set: from an upsert, or the empty one from a delete.
  function HandleReplaceActive(
    core: CoreData, id: ControllerId, seqNo: nat, baseVersion: Option<nat>, commands: seq<MotionCommand>
  ): Step
    requires ValidLimits(core.limits)
  {
    if !IsWriter(core, id) then Refuse(core, id, seqNo, NotWriter)
    else if !VersionMatches(baseVersion, core.version) then
      Answer(core, id, CommandResult(seqNo, false, core.version))
    else
      Step(WithActive(core, commands), Some(Publish(ClampAll(core.limits, commands))), {ResetIndex},
           [Post(None, CommandSetChanged(core.version + 1, None)),
            Post(Some(id), CommandResult(seqNo, true, core.version + 1))])
  }

  function HandleUpdate(core: CoreData, id: ControllerId, seqNo: nat, update: CommandUpdate): Step
    requires ValidLimits(core.limits)
  {
    if !IsWriter(core, id) then Refuse(core, id, seqNo, NotWriter)
    else if |core.active| <= update.index then Refuse(core, id, seqNo, OutOfRange)
    else
      var updated := Updated(core.active, update);
      if updated[update.index] == core.active[update.index] then
        Answer(core, id, CommandResult(seqNo, true, core.version))
      else
        Step(WithActive(core, updated), Some(Publish(ClampAll(core.limits, updated))), {},
             [Post(None, CommandSetChanged(core.version + 1, Some(update))),
              Post(Some(id), CommandResult(seqNo, true, core.version + 1))])
  }

  function HandleDeleteSaved(
    core: CoreData, id: ControllerId, seqNo: nat, name: string, baseVersion: Option<nat>
  ): Step {
    if name !in core.saved then Refuse(core, id, seqNo, NotFound)
    else if VersionMatches(baseVersion, core.saved[name].0) then
      Answer(core.(saved := core.saved - {name}), id, Ack(seqNo, None))
    else Answer(core, id, CommandResult(seqNo, false, core.saved[name].0))
  }

  function HandlePower(core: CoreData, id: ControllerId, seqNo: nat, enabled: bool): Step {
    if IsWriter(core, id) then Answer(core, id, Ack(seqNo, None)).(section := Some(SetPower(enabled)))
    else Refuse(core, id, seqNo, NotWriter)
  }

  predicate ActionAllowed(action: MotionAction, driveState: DriveState) {
    match action
    case Start => driveState == Paused
    case Pause => driveState == Moving
    case Resume => driveState == Paused
    case Stop => driveState == Moving || driveState == Paused
  }

  function HandleMotion(core: CoreData, id: ControllerId, seqNo: nat, action: MotionAction): Step {
    if !IsWriter(core, id) then Refuse(core, id, seqNo, NotWriter)
    else if !ActionAllowed(action, core.state.feedback.driveState) then Refuse(core, id, seqNo, InvalidState)
    else
      Answer(core, id, Ack(seqNo, None)).(
        section := Some(SetMotion(action == Start || action == Resume)),
        actions := if action == Start || action == Stop then {ResetIndex} else {})
  }

  function HandleAcknowledge(core: CoreData, id: ControllerId, seqNo: nat): Step {
    if !IsWriter(core, id) then Refuse(core, id, seqNo, NotWriter)
    else if core.state.feedback.driveState != Errored then Refuse(core, id, seqNo, InvalidState)
    else Answer(core, id, Ack(seqNo, None)).(actions := {AckError})
  }

  function HandleMessage(core: CoreData, id: ControllerId, message: ClientMessage): Step
    requires ValidLimits(core.limits)
  {
    match message
    case RequestWriteAccess(n) => HandleRequestAccess(core, id, n)
    case ReleaseWriteAccess(n) => HandleReleaseAccess(core, id, n)
    case GetState(n) => Answer(core, id, State(Some(n), core.state))
    case GetCommandSet(n, name) => HandleGetSet(core, id, n, name)
    case UpsertCommandSet(n, name, baseVersion, commands) =>
      if name.Some? then HandleUpsertSaved(core, id, n, name.value, baseVersion, commands)
      else HandleReplaceActive(core, id, n, baseVersion, commands)
    case UpdateCommand(n, update) => HandleUpdate(core, id, n, update)
    case DeleteCommandSet(n, name, baseVersion) =>
      if name.Some? then HandleDeleteSaved(core, id, n, name.value, baseVersion)
      else HandleReplaceActive(core, id, n, baseVersion, [])
    case ListSavedSets(n) =>
      Answer(core, id, SavedSetList(n, map name | name in core.saved :: core.saved[name].0))
    case SetDrivePower(n, enabled) => HandlePower(core, id, n, enabled)
    case SetMotionState(n, action) => HandleMotion(core, id, n, action)
    case AcknowledgeError(n) => HandleAcknowledge(core, id, n)
  }

  function HandleDisconnected(core: CoreData, id: ControllerId): Step {
    if IsWriter(core, id) then
      Step(WithHolder(core, None), Some(DisableDrive), {}, [Post(None, WriteAccessChanged(None, Some(id)))])
    else Step(core, None, {}, [])
  }

  function HandleEvent(core: CoreData, event: Event): Step
    requires ValidLimits(core.limits)
  {
    match event
    case ControllerConnected(id) => Answer(core, id, Connected(id, core.limits, core.state))
    case ControllerDisconnected(id) => HandleDisconnected(core, id)
    case FromController(id, message) => HandleMessage(core, id, message)
    case DriveStateUpdated(feedback) =>
      var updated := core.(state := core.state.(feedback := feedback));
      Step(updated, None, {}, [Post(None, State(None, updated.state))])
  }

  function InitialCore(limits: SystemLimits): CoreData {
    CoreData(limits, CoreState(DriveFeedback(Disconnected, 0, 0, 0), 0, None), 0, [], map[])
  }

  // ----- the object of the program -----

  // What a handler changes: the private state, the shared commands, the action bits, the messages sent.
  datatype World = World(core: CoreData, shared: DriveCommands, pending: set<DriveAction>, outbox: seq<Post>)

  // A whole step, undisturbed.
  function After(w: World, step: Step): World {
    World(step.core,
          if step.section.Some? then InSection(w.shared, step.section.value) else w.shared,
          w.pending + step.actions,
          w.outbox + step.posts)
  }

  class CoreManager {
    const limits: SystemLimits
    const actions: DriveActions
    const shared: SharedCommands
    var coreState: CoreState
    var activeVersion: nat
    var activeCommands: seq<MotionCommand>
    var savedCommandSets: map<string, (nat, seq<MotionCommand>)>
    var outbox: seq<Post>

    constructor (limits: SystemLimits, actions: DriveActions, shared: SharedCommands)
      requires ValidLimits(limits)
      ensures this.limits == limits && this.actions == actions && this.shared == shared
      ensures Data() == InitialCore(limits) && outbox == []
    {
      this.limits, this.actions, this.shared := limits, actions, shared;
      coreState := CoreState(DriveFeedback(Disconnected, 0, 0, 0), 0, None);
      activeVersion, activeCommands, savedCommandSets, outbox := 0, [], map[], [];
    }

    function Data(): CoreData
      reads this
    {
      CoreData(limits, coreState, activeVersion, activeCommands, savedCommandSets)
    }

    function View(): World
      reads this, actions, shared
    {
      World(Data(), shared.Value(), actions.pending, outbox)
    }

    method Send(destination: Option<ControllerId>, message: CoreMessage)
      modifies this`outbox
      ensures outbox == old(outbox) + [Post(destination, message)]
    {
      outbox := outbox + [Post(destination, message)];
    }

    method HandleCoreEvent(event: Event)
      requires ValidLimits(limits)
      modifies this, actions, shared
      ensures View() == After(old(View()), HandleEvent(old(Data()), event))
    {
      match event {
        case ControllerConnected(id) =>
          Send(Some(id), Connected(id, limits, coreState));
        case ControllerDisconnected(id) =>
          if coreState.writeAccessHolder == Some(id) {
            coreState := coreState.(writeAccessHolder := None);
            shared.powerEnabled := false;
            shared.motionEnabled := false;
            Send(None, WriteAccessChanged(None, Some(id)));
          }
        case FromController(id, message) =>
          HandleClientMessage(id, message);
        case DriveStateUpdated(feedback) =>
          coreState := coreState.(feedback := feedback);
          Send(None, State(None, coreState));
      }
    }

    method HandleClientMessage(id: ControllerId, message: ClientMessage)
      requires ValidLimits(limits)
      modifies this, actions, shared
      ensures View() == After(old(View()), HandleMessage(old(Data()), id, message))
    {
      match message {
        case RequestWriteAccess(n) => RequestAccess(id, n);
        case ReleaseWriteAccess(n) => ReleaseAccess(id, n);
        case GetState(n) => Send(Some(id), State(Some(n), coreState));
        case GetCommandSet(n, name) => GetSet(id, n, name);
        case UpsertCommandSet(n, name, baseVersion, commands) =>
          if name.Some? {
            UpsertSaved(id, n, name.value, baseVersion, commands);
          } else {
            ReplaceActive(id, n, baseVersion, commands);
          }
        case UpdateCommand(n, update) => Update(id, n, update);
        case DeleteCommandSet(n, name, baseVersion) =>
          if name.Some? {
            DeleteSaved(id, n, name.value, baseVersion);
          } else {
            ReplaceActive(id, n, baseVersion, []);
          }
        case ListSavedSets(n) =>
          Send(Some(id), SavedSetList(n, map name | name in savedCommandSets :: savedCommandSets[name].0));
        case SetDrivePower(n, enabled) => Power(id, n, enabled);
        case SetMotionState(n, action) => Motion(id, n, action);
        case AcknowledgeError(n) => Acknowledge(id, n);
      }
    }

    method RequestAccess(id: ControllerId, n: nat)
      modifies this
      ensures View() == After(old(View()), HandleRequestAccess(old(Data()), id, n))
    {
      var previous := coreState.writeAccessHolder;
      if coreState.feedback.driveState == Off || previous.None? || id == Hid {
        coreState := coreState.(writeAccessHolder := Some(id));
        if previous != Some(id) {
          Send(None, WriteAccessChanged(Some(id), previous));
        }
        Send(Some(id), WriteAccessResult(n, true, Some(id)));
      } else {
        Send(Some(id), WriteAccessResult(n, false, previous));
      }
    }

    method ReleaseAccess(id: ControllerId, n: nat)
      modifies this
      ensures View() == After(old(View()), HandleReleaseAccess(old(Data()), id, n))
    {
      if coreState.writeAccessHolder == Some(id) {
        coreState := coreState.(writeAccessHolder := None);
        Send(None, WriteAccessChanged(None, Some(id)));
        Send(Some(id), Ack(n, None));
      } else {
        Send(Some(id), Ack(n, Some(NotWriter)));
      }
    }

    method GetSet(id: ControllerId, n: nat, name: Option<string>)
      modifies this
      ensures View() == After(old(View()), HandleGetSet(old(Data()), id, n, name))
    {
      if name.Some? {
        if name.value in savedCommandSets {
          var entry := savedCommandSets[name.value];
          Send(Some(id), CommandSet(n, name, entry.0, entry.1));
        } else {
          Send(Some(id), Ack(n, Some(NotFound)));
        }
      } else {
        Send(Some(id), CommandSet(n, name, activeVersion, activeCommands));
      }
    }

    method UpsertSaved(
      id: ControllerId, n: nat, name: string, baseVersion: Option<nat>, commands: seq<MotionCommand>
    )
      modifies this
      ensures View() == After(old(View()), HandleUpsertSaved(old(Data()), id, n, name, baseVersion, commands))
    {
      if name in savedCommandSets {
        var version := savedCommandSets[name].0;
        if baseVersion.None? || baseVersion == Some(version) {
          savedCommandSets := savedCommandSets[name := (version + 1, commands)];
          Send(Some(id), CommandResult(n, true, version + 1));
        } else {
          Send(Some(id), CommandResult(n, false, version));
        }
      } else {
        savedCommandSets := savedCommandSets[name := (1, commands)];
        Send(Some(id), CommandResult(n, true, 1));
      }
    }

    method ReplaceActive(id: ControllerId, n: nat, baseVersion: Option<nat>, commands: seq<MotionCommand>)
      requires ValidLimits(limits)
      modifies this, actions, shared
      ensures View() == After(old(View()), HandleReplaceActive(old(Data()), id, n, baseVersion, commands))
    {
      if coreState.writeAccessHolder == Some(id) {
        if baseVersion.None? || baseVersion == Some(activeVersion) {
          activeVersion, activeCommands := activeVersion + 1, commands;
          SyncCommandsToDrive();
          actions.Send({ResetIndex});
          Send(None, CommandSetChanged(activeVersion, None));
          Send(Some(id), CommandResult(n, true, activeVersion));
        } else {
          Send(Some(id), CommandResult(n, false, activeVersion));
        }
      } else {
        Send(Some(id), Ack(n, Some(NotWriter)));
      }
    }

    method Update(id: ControllerId, n: nat, update: CommandUpdate)
      requires ValidLimits(limits)
      modifies this, shared
      ensures View() == After(old(View()), HandleUpdate(old(Data()), id, n, update))
    {
      if coreState.writeAccessHolder == Some(id) {
        if update.index < |activeCommands| {
          var command, changed := ApplyFields(activeCommands[update.index], update.fields);
          activeCommands := activeCommands[update.index := command];
          if changed {
            activeVersion := activeVersion + 1;
            SyncCommandsToDrive();
            Send(None, CommandSetChanged(activeVersion, Some(update)));
          }
          Send(Some(id), CommandResult(n, true, activeVersion));
        } else {
          Send(Some(id), Ack(n, Some(OutOfRange)));
        }
      } else {
        Send(Some(id), Ack(n, Some(NotWriter)));
      }
    }

    method DeleteSaved(id: ControllerId, n: nat, name: string, baseVersion: Option<nat>)
      modifies this
      ensures View() == After(old(View()), HandleDeleteSaved(old(Data()), id, n, name, baseVersion))
    {
      if name in savedCommandSets {
        var version := savedCommandSets[name].0;
        if baseVersion.None? || baseVersion == Some(version) {
          savedCommandSets := savedCommandSets - {name};
          Send(Some(id), Ack(n, None));
        } else {
          Send(Some(id), CommandResult(n, false, version));
        }
      } else {
        Send(Some(id), Ack(n, Some(NotFound)));
      }
    }

    method Power(id: ControllerId, n: nat, enabled: bool)
      modifies this, shared
      ensures View() == After(old(View()), HandlePower(old(Data()), id, n, enabled))
    {
      if coreState.writeAccessHolder == Some(id) {
        shared.powerEnabled := enabled;
        shared.motionEnabled := enabled && shared.motionEnabled;
        Send(Some(id), Ack(n, None));
      } else {
        Send(Some(id), Ack(n, Some(NotWriter)));
      }
    }

    method Motion(id: ControllerId, n: nat, action: MotionAction)
      modifies this, actions, shared
      ensures View() == After(old(View()), HandleMotion(old(Data()), id, n, action))
    {
      if coreState.writeAccessHolder != Some(id) {
        Send(Some(id), Ack(n, Some(NotWriter)));
        return;
      }
      if !ActionAllowed(action, coreState.feedback.driveState) {
        Send(Some(id), Ack(n, Some(InvalidState)));
        return;
      }
      shared.motionEnabled := action == Start || action == Resume;
      if action == Start || action == Stop {
        actions.Send({ResetIndex});
      }
      Send(Some(id), Ack(n, None));
    }

    method Acknowledge(id: ControllerId, n: nat)
      modifies this, actions
      ensures View() == After(old(View()), HandleAcknowledge(old(Data()), id, n))
    {
      if coreState.writeAccessHolder != Some(id) {
        Send(Some(id), Ack(n, Some(NotWriter)));
        return;
      }
      if coreState.feedback.driveState != Errored {
        Send(Some(id), Ack(n, Some(InvalidState)));
        return;
      }
      actions.Send({AckError});
      Send(Some(id), Ack(n, None));
    }

    /** Publishes the version, and the pointwise clamp of the active list. */
    method SyncCommandsToDrive()
      requires ValidLimits(limits)
      modifies this`coreState, shared`commands
      ensures coreState == old(coreState).(commandSetVersion := activeVersion)
      ensures shared.commands == ClampAll(limits, activeCommands)
    {
      coreState := coreState.(commandSetVersion := activeVersion);
      shared.commands := [];
      for i := 0 to |activeCommands|
        modifies shared`commands
        invariant |shared.commands| == i
        invariant forall k | 0 <= k < i :: shared.commands[k] == ClampCommand(limits, activeCommands[k])
      {
        shared.commands := shared.commands + [ClampCommand(limits, activeCommands[i])];
      }
    }
  }
}

/**
  What the writer's messages do: to the shared commands and the action bits at once, and to every command
  that the drive thread computes afterwards, over every interleaving.
 */
module OperatorControl {
  import opened Base
  import opened Messages
  import opened Controller
  import opened Core
  import opened Interleaving

  // ----- one message -----

  // In which states the drive may be started or resumed, paused, and stopped.
  predicate MayDo(action: MotionAction, driveState: DriveState) {
    || (action in {Start, Resume} && driveState == Paused)
    || (action == Pause && driveState == Moving)
    || (action == Stop && driveState in {Moving, Paused})
  }

  function AfterMessage(w: World, id: ControllerId, message: ClientMessage): World
    requires ValidLimits(w.core.limits)
  {
    After(w, HandleEvent(w.core, FromController(id, message)))
  }

  /**
    A motion message of the writer, in a state that allows it: Start and Resume enable motion, Pause and
    Stop disable it, Start and Stop also reset the index, and nothing else of the shared state changes.
    In other states, and from others, nothing does.
   */
  lemma MotionMessage(w: World, id: ControllerId, n: nat, action: MotionAction)
    requires ValidLimits(w.core.limits)
    ensures
      var w', answer := AfterMessage(w, id, SetMotionState(n, action)), Post(Some(id), Ack(n, None));
      var allowed := IsWriter(w.core, id) && MayDo(action, w.core.state.feedback.driveState);
      if !allowed then w'.shared == w.shared && w'.pending == w.pending && answer !in w'.outbox[|w.outbox|..]
      else
        && w'.shared.motionEnabled == (match action case Start => true case Resume => true
                                                    case Pause => false case Stop => false)
        && w'.shared.powerEnabled == w.shared.powerEnabled && w'.shared.commands == w.shared.commands
        && w'.pending == w.pending + (match action case Start => {ResetIndex} case Stop => {ResetIndex}
                                                   case Pause => {} case Resume => {})
        && w'.outbox == w.outbox + [answer]
  {
  }

  /**
    The writer's power message sets the flag asked for. Switching off also disables motion, switching on
    never enables it.
   */
  lemma PowerMessage(w: World, id: ControllerId, n: nat, enabled: bool)
    requires ValidLimits(w.core.limits)
    ensures
      var w' := AfterMessage(w, id, SetDrivePower(n, enabled));
      && w'.pending == w.pending && w'.shared.commands == w.shared.commands
      && (if !IsWriter(w.core, id) then w'.shared == w.shared
          else
            && w'.shared.powerEnabled == enabled
            && (w'.shared.motionEnabled <==> enabled && w.shared.motionEnabled))
  {
  }

  /** Acknowledging an error sets just that action bit, for the writer and in the error state only. */
  lemma AcknowledgeMessage(w: World, id: ControllerId, n: nat)
    requires ValidLimits(w.core.limits)
    ensures
      var w' := AfterMessage(w, id, AcknowledgeError(n));
      && w'.shared == w.shared
      && w'.pending == w.pending + if IsWriter(w.core, id) && w.core.state.feedback.driveState == Errored
                                   then {AckError} else {}
  {
  }

  // The value nearest to x from 0 to the limit.
  predicate Nearest(r: int, x: int, limit: int) {
    && (0 <= x <= limit ==> r == x)
    && (x < 0 ==> r == 0)
    && (limit < x ==> r == limit)
  }

  predicate Published(shared: DriveCommands, active: seq<MotionCommand>, limits: SystemLimits) {
    && |shared.commands| == |active|
    && forall i | 0 <= i < |active| ::
         && Nearest(shared.commands[i].position, active[i].position, limits.position)
         && Nearest(shared.commands[i].velocity, active[i].velocity, limits.velocity)
         && Nearest(shared.commands[i].acceleration, active[i].acceleration, limits.acceleration)
         && Nearest(shared.commands[i].deceleration, active[i].deceleration, limits.deceleration)
  }

  // The lock section of the step publishes the new active list, if it is new.
  predicate Publishes(core: CoreData, step: Step)
    requires ValidLimits(core.limits)
  {
    if step.core.active == core.active && step.core.version == core.version
    then step.section.None? || !step.section.value.Publish?
    else step.section == Some(Publish(ClampAll(core.limits, step.core.active)))
  }

  lemma MessagePublishes(core: CoreData, id: ControllerId, message: ClientMessage)
    requires ValidLimits(core.limits)
    ensures Publishes(core, HandleMessage(core, id, message))
  {
    hide ClampAll, Updated;
    if message.UpsertCommandSet? && message.name.None? {
      assert Publishes(core, HandleReplaceActive(core, id, message.seqNo, message.baseVersion, message.commands));
    }
  }

  /** Every change of the active list is published, each value as it is if within the limits, else the limit. */
  lemma ChangesArePublished(w: World, event: Event)
    requires ValidLimits(w.core.limits)
    ensures
      var w' := After(w, HandleEvent(w.core, event));
      && (w'.core.active != w.core.active || w'.core.version != w.core.version ==>
            Published(w'.shared, w'.core.active, w.core.limits))
      && (w'.core.active == w.core.active && w'.core.version == w.core.version ==>
            w'.shared.commands == w.shared.commands)
  {
    if event.FromController? { MessagePublishes(w.core, event.id, event.message); }
    hide HandleMessage;
  }

  /** A new list for the active set starts from its first command; a change of one command does not. */
  lemma ReplacementResets(w: World, id: ControllerId, n: nat, baseVersion: Option<nat>, commands: seq<MotionCommand>)
    requires ValidLimits(w.core.limits) && IsWriter(w.core, id)
    requires baseVersion.None? || baseVersion == Some(w.core.version)
    ensures
      var w' := AfterMessage(w, id, UpsertCommandSet(n, None, baseVersion, commands));
      w'.core.active == commands && w'.pending == w.pending + {ResetIndex}
    ensures
      var w' := AfterMessage(w, id, DeleteCommandSet(n, None, baseVersion));
      w'.core.active == [] && w'.pending == w.pending + {ResetIndex}
  {
  }

  lemma UpdateKeepsIndex(w: World, id: ControllerId, n: nat, update: CommandUpdate)
    requires ValidLimits(w.core.limits)
    ensures AfterMessage(w, id, UpdateCommand(n, update)).pending == w.pending
  {
  }

  // ----- what it means for the drive -----

  predicate Does(before: CoreData, event: Event, actions: set<MotionAction>) {
    && event.FromController? && IsWriter(before, event.id) && event.message.SetMotionState?
    && event.message.action in actions && MayDo(event.message.action, before.state.feedback.driveState)
  }

  predicate Halts(before: CoreData, event: Event) {
    Does(before, event, {Pause, Stop})
  }

  predicate Sets(before: CoreData, event: Event) {
    Does(before, event, {Start, Resume})
  }

  predicate PowersOff(before: CoreData, event: Event) {
    || (event.FromController? && IsWriter(before, event.id) && event.message.SetDrivePower? && !event.message.enabled)
    || WriterLost(before, event)
  }

  lemma MotionAfterSection(before: CoreData, event: Event, shared: DriveCommands)
    requires ValidLimits(before.limits)
    ensures
      var section := HandleEvent(before, event).section;
      var after := if section.Some? then InSection(shared, section.value) else shared;
      && (Sets(before, event) ==> after.motionEnabled)
      && (Halts(before, event) || PowersOff(before, event) ==> !after.motionEnabled)
      && (!Sets(before, event) ==> after.motionEnabled ==> shared.motionEnabled)
      && (!Halts(before, event) && !PowersOff(before, event) ==> shared.motionEnabled ==> after.motionEnabled)
  {
  }

  // The move is the section of such an event.
  predicate Section(s: System, move: Move) {
    move.CoreAdvances? && s.task.Handling? && s.task.stage == BeforeSection
  }

  predicate NoneSets(settings: Settings, s: System, moves: seq<Move>)
    requires AllEnabled(settings, s, moves)
    decreases |moves|
  {
    moves != [] ==>
      && !(Section(s, moves[0]) && Sets(s.task.before, s.task.event))
      && NoneSets(settings, Apply(settings, s, moves[0]), moves[1..])
  }

  predicate NoneHalts(settings: Settings, s: System, moves: seq<Move>)
    requires AllEnabled(settings, s, moves)
    decreases |moves|
  {
    moves != [] ==>
      && !(Section(s, moves[0]) && (Halts(s.task.before, s.task.event) || PowersOff(s.task.before, s.task.event)))
      && NoneHalts(settings, Apply(settings, s, moves[0]), moves[1..])
  }

  // No pass of the run computes a motion.
  predicate NoneMoves(settings: Settings, s: System, moves: seq<Move>)
    requires AllEnabled(settings, s, moves)
    decreases |moves|
  {
    moves != [] ==>
      var s' := Apply(settings, s, moves[0]);
      && (moves[0].DriveComputes? && s'.drive.next.Some? ==> s'.drive.next.value.command.VaiStop?)
      && NoneMoves(settings, s', moves[1..])
  }

  // Every pass that finds power, a list and a drive ready to be moved computes a motion.
  predicate AllMove(settings: Settings, s: System, moves: seq<Move>)
    requires AllEnabled(settings, s, moves)
    decreases |moves|
  {
    moves != [] ==>
      var s' := Apply(settings, s, moves[0]);
      && (moves[0].DriveComputes? && s.drive.commands != []
          && DemandIn(s.drive.powerEnabled, moves[0].response).Some? ==>
            s'.drive.next.Some? && s'.drive.next.value.command.VaiGoToPos?)
      && AllMove(settings, s', moves[1..])
  }

  lemma SectionOfMove(settings: Settings, s: System, move: Move)
    requires Enabled(s, move)
    ensures
      var s' := Apply(settings, s, move);
      if Section(s, move) then
        && (Sets(s.task.before, s.task.event) || (s'.shared.motionEnabled ==> s.shared.motionEnabled))
        && (Halts(s.task.before, s.task.event) || PowersOff(s.task.before, s.task.event)
            || (s.shared.motionEnabled ==> s'.shared.motionEnabled))
      else s'.shared == s.shared
  {
    if Section(s, move) { MotionAfterSection(s.task.before, s.task.event, s.shared); }
  }

  lemma ComputedMotion(settings: Settings, c: ControllerState, response: Response)
    ensures c.next.None? && !c.motionEnabled && Computed(settings, c, response).next.Some? ==>
      Computed(settings, c, response).next.value.command.VaiStop?
    ensures c.motionEnabled && c.commands != [] && DemandIn(c.powerEnabled, response).Some? ==>
      && Computed(settings, c, response).next.Some?
      && Computed(settings, c, response).next.value.command.VaiGoToPos?
    ensures Computed(settings, c, response).motionEnabled == c.motionEnabled
  {
    hide Reached, ClampFor, FlagsAfter;
  }

  lemma {:induction false} StaysHalted(settings: Settings, s: System, moves: seq<Move>)
    requires ValidSettings(settings) && Invariant(s)
    requires AllEnabled(settings, s, moves) && NoneSets(settings, s, moves)
    requires !s.shared.motionEnabled
    ensures !Run(settings, s, moves).shared.motionEnabled && Invariant(Run(settings, s, moves))
    ensures !s.drive.motionEnabled ==> NoneMoves(settings, s, moves)
    decreases |moves|
  {
    hide HandleEvent, Computed, Invariant, Sets;
    if moves != [] {
      var move, s' := moves[0], Apply(settings, s, moves[0]);
      SectionOfMove(settings, s, move);
      InvariantStep(settings, s, move);
      if move.DriveComputes? {
        NothingQueued(s);
        ComputedMotion(settings, s.drive, move.response);
      }
      StaysHalted(settings, s', moves[1..]);
    }
  }

  lemma NothingQueued(s: System)
    requires Invariant(s) && s.phase == AtCompute
    ensures s.drive.next.None?
  {
  }

  /**
    The core publishes an accepted Pause or Stop; `early` is whatever happens until the drive next gets the
    lock, `late` whatever happens after that. Until a later Start or Resume no pass in `late` computes a
    motion, whatever is done to power, list and connection.
   */
  lemma PauseHoldsDrive(settings: Settings, s: System, early: seq<Move>, late: seq<Move>)
    requires ValidSettings(settings) && Invariant(s) && Section(s, CoreAdvances)
    requires Halts(s.task.before, s.task.event)
    requires AllEnabled(settings, AdvanceCore(s), early) && NoneSets(settings, AdvanceCore(s), early)
    requires Run(settings, AdvanceCore(s), early).phase == AtLock
    requires
      var fetched := Apply(settings, Run(settings, AdvanceCore(s), early), DriveTriesLock(true));
      AllEnabled(settings, fetched, late) && NoneSets(settings, fetched, late)
    ensures
      var fetched := Apply(settings, Run(settings, AdvanceCore(s), early), DriveTriesLock(true));
      NoneMoves(settings, fetched, late)
  {
    MotionAfterSection(s.task.before, s.task.event, s.shared);
    InvariantStep(settings, s, CoreAdvances);
    assert AdvanceCore(s) == Apply(settings, s, CoreAdvances);
    StaysHalted(settings, AdvanceCore(s), early);
    var locked := Run(settings, AdvanceCore(s), early);
    InvariantStep(settings, locked, DriveTriesLock(true));
    StaysHalted(settings, Apply(settings, locked, DriveTriesLock(true)), late);
  }

  predicate NoneReconnects(moves: seq<Move>) {
    forall i | 0 <= i < |moves| :: !moves[i].DriveReconnects?
  }

  lemma {:induction false} StaysSet(settings: Settings, s: System, moves: seq<Move>)
    requires AllEnabled(settings, s, moves) && NoneHalts(settings, s, moves) && s.shared.motionEnabled
    ensures Run(settings, s, moves).shared.motionEnabled
    ensures s.drive.motionEnabled && NoneReconnects(moves) ==> AllMove(settings, s, moves)
    decreases |moves|
  {
    hide HandleEvent, Computed, Halts, PowersOff;
    if moves != [] {
      var move, s' := moves[0], Apply(settings, s, moves[0]);
      SectionOfMove(settings, s, move);
      if move.DriveComputes? { ComputedMotion(settings, s.drive, move.response); }
      StaysSet(settings, s', moves[1..]);
    }
  }

  /**
    Likewise an accepted Start or Resume: from the next lock on every pass that finds power, a list and a
    drive ready to be moved computes a motion, until motion or power is switched off, the writer is lost or
    the drive thread starts over.
   */
  lemma StartMovesDrive(settings: Settings, s: System, early: seq<Move>, late: seq<Move>)
    requires Section(s, CoreAdvances) && ValidLimits(s.task.before.limits)
    requires Sets(s.task.before, s.task.event)
    requires AllEnabled(settings, AdvanceCore(s), early) && NoneHalts(settings, AdvanceCore(s), early)
    requires Run(settings, AdvanceCore(s), early).phase == AtLock
    requires
      var fetched := Apply(settings, Run(settings, AdvanceCore(s), early), DriveTriesLock(true));
      AllEnabled(settings, fetched, late) && NoneHalts(settings, fetched, late) && NoneReconnects(late)
    ensures
      var fetched := Apply(settings, Run(settings, AdvanceCore(s), early), DriveTriesLock(true));
      AllMove(settings, fetched, late)
  {
    MotionAfterSection(s.task.before, s.task.event, s.shared);
    StaysSet(settings, AdvanceCore(s), early);
    StaysSet(settings, Apply(settings, Run(settings, AdvanceCore(s), early), DriveTriesLock(true)), late);
  }
}

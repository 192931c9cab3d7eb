/**
  The core thread and the drive thread, interleaved at will. The core's steps are to receive an event,
  to run its section under the mutex, to set action bits and to send its messages; the drive's are to
  send a request, to take the actions, to try the lock, which may fail, and to compute. A request that
  fails ends the connection, and the drive thread starts over with a new one.
 */
module Interleaving {
  import opened Base
  import opened Kinematics
  import opened ClampTheorems
  import opened Messages
  import opened Controller
  import opened Core
  import R = ControllerRuns

  datatype Stage = BeforeSection | BeforeActions | BeforePosts

  // What the core is busy with: the event it handles, and its data from before.
  datatype Task = Idle | Handling(before: CoreData, event: Event, stage: Stage)

  datatype Phase = AtSend | AtTake | AtLock | AtCompute

  datatype System = System(
    core: CoreData, task: Task, shared: DriveCommands, pending: set<DriveAction>, outbox: seq<Post>,
    drive: ControllerState, phase: Phase)

  datatype Move =
    | CoreReceives(event: Event)
    | CoreAdvances
    | DriveSends
    | DriveTakes
    | DriveTriesLock(success: bool)
    | DriveComputes(response: Response)
    | DriveReconnects

  predicate Enabled(s: System, move: Move) {
    match move
    case CoreReceives(_) => s.task.Idle? && ValidLimits(s.core.limits)
    case CoreAdvances => s.task.Handling? && ValidLimits(s.task.before.limits)
    case DriveSends => s.phase == AtSend
    case DriveReconnects => s.phase == AtSend
    case DriveTakes => s.phase == AtTake
    case DriveTriesLock(_) => s.phase == AtLock
    case DriveComputes(_) => s.phase == AtCompute
  }

  function StepOf(task: Task): Step
    requires task.Handling? && ValidLimits(task.before.limits)
  {
    HandleEvent(task.before, task.event)
  }

  function AdvanceCore(s: System): System
    requires s.task.Handling? && ValidLimits(s.task.before.limits)
  {
    var step := StepOf(s.task);
    match s.task.stage
    case BeforeSection =>
      s.(task := s.task.(stage := BeforeActions),
         shared := if step.section.Some? then InSection(s.shared, step.section.value) else s.shared)
    case BeforeActions =>
      s.(task := s.task.(stage := BeforePosts), pending := s.pending + step.actions)
    case BeforePosts =>
      s.(task := Idle, outbox := s.outbox + step.posts)
  }

  function Apply(settings: Settings, s: System, move: Move): System
    requires Enabled(s, move)
  {
    match move
    case CoreReceives(event) =>
      s.(core := HandleEvent(s.core, event).core, task := Handling(s.core, event, BeforeSection))
    case CoreAdvances => AdvanceCore(s)
    case DriveReconnects => s.(drive := DISCONNECTED)
    case DriveSends => s.(drive := AfterSend(s.drive), phase := AtTake)
    case DriveTakes => s.(drive := AfterActions(s.drive, s.pending), pending := {}, phase := AtLock)
    case DriveTriesLock(success) =>
      s.(drive := if success then AfterLock(s.drive, s.shared) else s.drive, phase := AtCompute)
    case DriveComputes(response) => s.(drive := Computed(settings, s.drive, response), phase := AtSend)
  }

  predicate AllEnabled(settings: Settings, s: System, moves: seq<Move>)
    decreases |moves|
  {
    moves != [] ==> Enabled(s, moves[0]) && AllEnabled(settings, Apply(settings, s, moves[0]), moves[1..])
  }

  function Run(settings: Settings, s: System, moves: seq<Move>): System
    requires AllEnabled(settings, s, moves)
    decreases |moves|
  {
    if moves == [] then s else Run(settings, Apply(settings, s, moves[0]), moves[1..])
  }

  function InitialSystem(limits: SystemLimits): System {
    System(InitialCore(limits), Idle, DriveCommands(false, false, []), {}, [],
           DISCONNECTED, AtSend)
  }

  /** A whole event or a whole pass of the loop, undisturbed, is what the objects of the program do. */
  lemma UndisturbedSteps(settings: Settings, s: System, event: Event, success: bool, response: Response)
    requires s.task.Idle? && s.phase == AtSend && ValidLimits(s.core.limits)
    ensures
      var moves := EventMoves(event);
      && AllEnabled(settings, s, moves)
      && var w := After(World(s.core, s.shared, s.pending, s.outbox), HandleEvent(s.core, event));
         Run(settings, s, moves) == s.(core := w.core, shared := w.shared, pending := w.pending, outbox := w.outbox)
    ensures
      var moves := PassMoves(success, response);
      && AllEnabled(settings, s, moves)
      && Run(settings, s, moves)
         == s.(pending := {},
               drive := Tick(settings, s.drive, s.pending, if success then Some(s.shared) else None, response))
  {
    UndisturbedEvent(settings, s, event);
    UndisturbedPass(settings, s, success, response);
  }

  function EventMoves(event: Event): seq<Move> {
    [CoreReceives(event), CoreAdvances, CoreAdvances, CoreAdvances]
  }

  function PassMoves(success: bool, response: Response): seq<Move> {
    [DriveSends, DriveTakes, DriveTriesLock(success), DriveComputes(response)]
  }

  lemma UndisturbedEvent(settings: Settings, s: System, event: Event)
    requires s.task.Idle? && ValidLimits(s.core.limits)
    ensures AllEnabled(settings, s, EventMoves(event))
    ensures
      var w := After(World(s.core, s.shared, s.pending, s.outbox), HandleEvent(s.core, event));
      Run(settings, s, EventMoves(event))
      == s.(core := w.core, shared := w.shared, pending := w.pending, outbox := w.outbox)
  {
    hide HandleEvent;
    var s1 := Apply(settings, s, CoreReceives(event));
    var s2 := AdvanceCore(s1);
    RunFour(settings, s, s1, s2, AdvanceCore(s2), EventMoves(event));
  }

  // A pass of the drive does not depend on what the core is busy with.
  lemma UndisturbedPass(settings: Settings, s: System, success: bool, response: Response)
    requires s.phase == AtSend
    ensures AllEnabled(settings, s, PassMoves(success, response))
    ensures Run(settings, s, PassMoves(success, response))
         == s.(pending := {},
               drive := Tick(settings, s.drive, s.pending, if success then Some(s.shared) else None, response))
  {
    hide Computed;
    var d1 := Apply(settings, s, DriveSends);
    var d2 := Apply(settings, d1, DriveTakes);
    var d3 := Apply(settings, d2, DriveTriesLock(success));
    RunFour(settings, s, d1, d2, d3, PassMoves(success, response));
  }

  lemma {:induction false} RunAppend(settings: Settings, s: System, p: seq<Move>, q: seq<Move>)
    requires AllEnabled(settings, s, p) && AllEnabled(settings, Run(settings, s, p), q)
    ensures AllEnabled(settings, s, p + q)
    ensures Run(settings, s, p + q) == Run(settings, Run(settings, s, p), q)
    decreases |p|
  {
    hide Apply;
    if p == [] {
      assert p + q == q;
    } else {
      assert (p + q)[1..] == p[1..] + q && (p + q)[0] == p[0];
      RunAppend(settings, Apply(settings, s, p[0]), p[1..], q);
    }
  }

  lemma RunFour(settings: Settings, s: System, s1: System, s2: System, s3: System, moves: seq<Move>)
    requires |moves| == 4
    requires Enabled(s, moves[0]) && s1 == Apply(settings, s, moves[0])
    requires Enabled(s1, moves[1]) && s2 == Apply(settings, s1, moves[1])
    requires Enabled(s2, moves[2]) && s3 == Apply(settings, s2, moves[2])
    requires Enabled(s3, moves[3])
    ensures AllEnabled(settings, s, moves)
    ensures Run(settings, s, moves) == Apply(settings, s3, moves[3])
  {
    var s4 := Apply(settings, s3, moves[3]);
    assert AllEnabled(settings, s4, moves[4..]);
    RunCons(settings, s3, moves[3..]);
    assert moves[2..][1..] == moves[3..];
    RunCons(settings, s2, moves[2..]);
    assert moves[1..][1..] == moves[2..];
    RunCons(settings, s1, moves[1..]);
    RunCons(settings, s, moves);
  }

  lemma RunCons(settings: Settings, s: System, moves: seq<Move>)
    requires moves != [] && Enabled(s, moves[0])
    requires AllEnabled(settings, Apply(settings, s, moves[0]), moves[1..])
    ensures AllEnabled(settings, s, moves)
    ensures Run(settings, s, moves) == Run(settings, Apply(settings, s, moves[0]), moves[1..])
  {
  }

  // ----- limits -----

  predicate CommandWithin(limits: SystemLimits, c: MotionCommand) {
    && 0 <= c.position <= limits.position && 0 <= c.velocity <= limits.velocity
    && 0 <= c.acceleration <= limits.acceleration && 0 <= c.deceleration <= limits.deceleration
  }

  predicate AllWithin(limits: SystemLimits, commands: seq<MotionCommand>) {
    forall i | 0 <= i < |commands| :: CommandWithin(limits, commands[i])
  }

  predicate ValidSettings(settings: Settings) {
    0 <= settings.hardMin <= settings.hardMax <= I32_MAX
  }

  // The command on its way to the drive has a count and a deceleration that the wire can carry, and a
  // motion stays within the limits and is that of a list entry.
  predicate NextWithin(limits: SystemLimits, c: ControllerState) {
    c.next.Some? ==>
      var command := c.next.value.command;
      && c.next.value.count < 16
      && 0 <= command.deceleration <= I32_MAX
      && (command.VaiGoToPos? ==>
            && c.index < |c.commands|
            && command.targetPosition == c.commands[c.index].position
            && command.maximalVelocity == c.commands[c.index].velocity
            && command.acceleration == c.commands[c.index].acceleration
            && 0 <= command.targetPosition <= limits.position
            && 0 <= command.maximalVelocity <= limits.velocity
            && 0 <= command.acceleration <= limits.acceleration)
  }

  lemma ClampForInRange(settings: Settings, d: Demand, goal: Goal, requested: int)
    requires ValidSettings(settings) && 0 <= requested <= I32_MAX
    ensures 0 <= ClampFor(settings, d, goal, requested) <= I32_MAX
  {
    hide RecoveryDeceleration, NeededDeceleration;
    var margin := Abs(settings.overshootMargin);
    match StoppingRoom(goal.target - d.position, d.velocity, requested, goal.direction, margin)
    case Recovering(excess) => RecoveryInRange(excess, margin, settings.hardMin, settings.hardMax);
    case Within(room) => if room > 0 { NeededNonNegative(d.velocity, room); }
  }

  // The list that the shared one is the clamp of: until the section has run, the old one.
  function Published(s: System): seq<MotionCommand> {
    if s.task.Handling? && s.task.stage == BeforeSection then s.task.before.active else s.core.active
  }

  predicate Invariant(s: System) {
    && ValidLimits(s.core.limits)
    && (s.task.Handling? ==>
          && s.task.before.limits == s.core.limits
          && s.core == HandleEvent(s.task.before, s.task.event).core)
    && s.shared.commands == ClampAll(s.core.limits, Published(s))
    && AllWithin(s.core.limits, s.drive.commands)
    && (s.phase == AtSend ==> NextWithin(s.core.limits, s.drive))
    && (s.phase != AtSend ==> s.drive.next.None?)
    && (s.phase != AtCompute && !s.drive.powerEnabled ==> SwitchOn !in s.drive.flags)
  }

  lemma ClampAllWithin(limits: SystemLimits, commands: seq<MotionCommand>)
    requires ValidLimits(limits)
    ensures AllWithin(limits, ClampAll(limits, commands))
  {
  }

  lemma ComputedWithin(settings: Settings, c: ControllerState, response: Response, limits: SystemLimits)
    requires ValidSettings(settings) && ValidLimits(limits)
    requires AllWithin(limits, c.commands) && c.next.None?
    ensures NextWithin(limits, Computed(settings, c, response))
    ensures !c.powerEnabled ==>
      SwitchOn !in Computed(settings, c, response).flags && Computed(settings, c, response).next.None?
  {
    hide ClampFor, Reached;
    var demand := DemandIn(c.powerEnabled, response);
    if demand.Some? && c.commands != [] {
      var d := demand.value;
      var command := c.commands[Advanced(settings, c, d).index];
      assert CommandWithin(limits, command);
      ClampForInRange(settings, d, ClampGoal(settings, c, d), command.deceleration);
      ClampForInRange(settings, d, ClampGoal(settings, c, d), settings.hardMin);
    }
  }

  // Which sections a handler may have: a new list goes with its publication.
  lemma SectionPublishes(core: CoreData, event: Event)
    requires ValidLimits(core.limits)
    ensures
      var step := HandleEvent(core, event);
      && step.core.limits == core.limits
      && (if step.section.Some? && step.section.value.Publish?
          then step.section.value.commands == ClampAll(core.limits, step.core.active)
          else step.core.active == core.active)
  {
  }

  lemma InvariantStep(settings: Settings, s: System, move: Move)
    requires ValidSettings(settings) && Invariant(s) && Enabled(s, move)
    ensures Invariant(Apply(settings, s, move))
  {
    match move
    case CoreReceives(event) => SectionPublishes(s.core, event);
    case CoreAdvances => SectionPublishes(s.task.before, s.task.event);
    case DriveTriesLock(_) => ClampAllWithin(s.core.limits, Published(s));
    case DriveComputes(response) => ComputedWithin(settings, s.drive, response, s.core.limits);
    case _ =>
  }

  /**
    Over every interleaving the shared list is the pointwise clamp of the active one, and every motion
    command sent is within the limits and from an entry of the list that the drive then has.
   */
  lemma {:induction false} LimitsHold(settings: Settings, s: System, moves: seq<Move>)
    requires ValidSettings(settings) && Invariant(s) && AllEnabled(settings, s, moves)
    ensures Invariant(Run(settings, s, moves))
    decreases |moves|
  {
    if moves != [] {
      InvariantStep(settings, s, moves[0]);
      LimitsHold(settings, Apply(settings, s, moves[0]), moves[1..]);
    }
  }

  lemma InvariantInitially(limits: SystemLimits)
    requires ValidLimits(limits)
    ensures Invariant(InitialSystem(limits))
  {
  }

  // ----- authority -----

  predicate FromWriter(before: CoreData, event: Event) {
    event.FromController? && IsWriter(before, event.id)
  }

  predicate WriterLost(before: CoreData, event: Event) {
    event.ControllerDisconnected? && IsWriter(before, event.id)
  }

  /**
    What the two threads share changes only when the core handles a message from the controller that
    held write access when it arrived, or, by switching off, the disconnection of that controller. The
    drive itself only clears the action bits.
   */
  lemma OnlyTheWriterActs(settings: Settings, s: System, move: Move)
    requires Enabled(s, move)
    requires Apply(settings, s, move).shared != s.shared || !(Apply(settings, s, move).pending <= s.pending)
    ensures move.CoreAdvances?
    ensures FromWriter(s.task.before, s.task.event) || WriterLost(s.task.before, s.task.event)
    ensures WriterLost(s.task.before, s.task.event) ==>
      && Apply(settings, s, move).shared == s.shared.(powerEnabled := false, motionEnabled := false)
      && Apply(settings, s, move).pending == s.pending
  {
    if move.CoreAdvances? {
      StepNeedsWriter(s.task.before, s.task.event);
    }
  }

  lemma StepNeedsWriter(before: CoreData, event: Event)
    requires ValidLimits(before.limits)
    requires HandleEvent(before, event).section.Some? || HandleEvent(before, event).actions != {}
    ensures FromWriter(before, event) || WriterLost(before, event)
    ensures WriterLost(before, event) ==>
      HandleEvent(before, event).section == Some(DisableDrive) && HandleEvent(before, event).actions == {}
  {
  }

  // ----- action bits -----

  predicate NoMoveComputes(moves: seq<Move>) {
    forall i | 0 <= i < |moves| :: !moves[i].DriveComputes?
  }

  predicate NoMoveTakes(moves: seq<Move>) {
    forall i | 0 <= i < |moves| :: !moves[i].DriveTakes?
  }

  /** An action bit stays set until the drive takes it, however often the core sets others. */
  lemma {:induction false} PendingUntilTaken(settings: Settings, s: System, moves: seq<Move>, bit: DriveAction)
    requires AllEnabled(settings, s, moves) && bit in s.pending && NoMoveTakes(moves)
    ensures bit in Run(settings, s, moves).pending
    decreases |moves|
  {
    if moves != [] {
      assert !moves[0].DriveTakes?;
      PendingUntilTaken(settings, Apply(settings, s, moves[0]), moves[1..], bit);
    }
  }

  // The drive starts the list over.
  predicate AtStart(c: ControllerState) {
    c.index == 0 && !c.hasApproached && c.direction.None?
  }

  // The reset is still to be taken in this pass, or has been.
  predicate ResetOnItsWay(s: System) {
    match s.phase
    case AtSend | AtTake => ResetIndex in s.pending
    case AtLock | AtCompute => AtStart(s.drive)
  }

  lemma {:induction false} ResetArrives(settings: Settings, s: System, moves: seq<Move>)
    requires AllEnabled(settings, s, moves) && ResetOnItsWay(s) && NoMoveComputes(moves)
    ensures ResetOnItsWay(Run(settings, s, moves))
    decreases |moves|
  {
    if moves != [] {
      assert !moves[0].DriveComputes?;
      ResetArrives(settings, Apply(settings, s, moves[0]), moves[1..]);
    }
  }

  // The core is about to set the bits for a replacement of the list, which it has just published.
  predicate Replacing(s: System) {
    s.task.Handling? && s.task.stage == BeforeActions && ValidLimits(s.task.before.limits)
    && ResetIndex in StepOf(s.task).actions
  }

  /**
    A reset set before the drive takes the actions of a pass is in time: whatever else happens, the
    drive computes that pass from the start of the list.
   */
  lemma ResetBeforeTake(settings: Settings, s: System, moves: seq<Move>)
    requires Replacing(s) && (s.phase == AtSend || s.phase == AtTake)
    requires AllEnabled(settings, AdvanceCore(s), moves) && NoMoveComputes(moves)
    requires Run(settings, AdvanceCore(s), moves).phase == AtCompute
    ensures AtStart(Run(settings, AdvanceCore(s), moves).drive)
  {
    ResetArrives(settings, AdvanceCore(s), moves);
  }

  // Before the drive takes the actions, the core sets its bits or the drive connects anew.
  predicate ResetInTime(moves: seq<Move>) {
    && moves != [] && !moves[0].DriveTakes?
    && (moves[0].CoreAdvances? || moves[0].DriveReconnects? || ResetInTime(moves[1..]))
  }

  // From the take to the computation nothing moves the drive within its list.
  lemma {:induction false} IndexWaits(settings: Settings, s: System, moves: seq<Move>)
    requires s.phase == AtLock || s.phase == AtCompute
    requires AllEnabled(settings, s, moves) && NoMoveComputes(moves)
    ensures AtStart(Run(settings, s, moves).drive) <==> AtStart(s.drive)
    decreases |moves|
  {
    if moves != [] {
      assert !moves[0].DriveComputes?;
      IndexWaits(settings, Apply(settings, s, moves[0]), moves[1..]);
    }
  }

  /**
    The exact condition: while the core is about to set the reset for a new list, the pass that the
    drive is in starts the list over if and only if a reset is pending already, the drive stood at the
    start anyway, or the core's step (or a new connection) comes before the take.
   */
  lemma {:induction false} ListStartsOverExactlyWhen(settings: Settings, s: System, moves: seq<Move>)
    requires Replacing(s) && (s.phase == AtSend || s.phase == AtTake)
    requires AllEnabled(settings, s, moves) && NoMoveComputes(moves)
    requires Run(settings, s, moves).phase == AtCompute
    ensures AtStart(Run(settings, s, moves).drive)
      <==> ResetIndex in s.pending || AtStart(s.drive) || ResetInTime(moves)
    decreases |moves|
  {
    hide HandleEvent;
    assert moves != [];
    var s', rest := Apply(settings, s, moves[0]), moves[1..];
    assert !moves[0].DriveComputes?;
    match moves[0]
    case CoreAdvances => ResetArrives(settings, s', rest);
    case DriveTakes => IndexWaits(settings, s', rest);
    case DriveReconnects => ListStartsOverExactlyWhen(settings, s', rest);
    case DriveSends => ListStartsOverExactlyWhen(settings, s', rest);
  }

  /**
    One set after the take misses that pass: if the drive gets the lock it has the new list, but stands
    where it stood in the old one. The bit waits for the next pass.
   */
  lemma ResetAfterTake(settings: Settings, s: System)
    requires Replacing(s) && s.phase == AtLock
    ensures
      var late := Apply(settings, AdvanceCore(s), DriveTriesLock(true));
      && late.phase == AtCompute && ResetIndex in late.pending
      && late.drive == s.drive.(powerEnabled := s.shared.powerEnabled, motionEnabled := s.shared.motionEnabled,
                                commands := s.shared.commands)
  {
  }

  function Passes(responses: seq<Response>): seq<Move> {
    if responses == [] then [] else PassMoves(true, responses[0]) + Passes(responses[1..])
  }

  // What these passes meet: the pending actions once, then none, and always the shared list.
  function PassInputs(shared: DriveCommands, pending: set<DriveAction>, responses: seq<Response>): seq<R.Input>
    decreases |responses|
  {
    if responses == [] then []
    else [R.Input(pending, Some(shared), responses[0])] + PassInputs(shared, {}, responses[1..])
  }

  /**
    Nothing bounds the delay. While the core is stopped between publishing a list and setting the reset,
    the drive can make any number of passes over the new list from where it stood in the old one, and
    with silent responses it stays there.
   */
  lemma {:induction false} ResetMayComeLate(settings: Settings, s: System, responses: seq<Response>)
    requires Replacing(s) && s.phase == AtSend && ResetIndex !in s.pending
    ensures AllEnabled(settings, s, Passes(responses))
    ensures
      var late := Run(settings, s, Passes(responses));
      && late == s.(pending := if responses == [] then s.pending else {},
                    drive := R.RunFrom(settings, s.drive, PassInputs(s.shared, s.pending, responses)))
      && Replacing(late) && ResetIndex !in late.pending
      && (responses != [] ==> late.drive.commands == s.shared.commands)
      && ((forall i | 0 <= i < |responses| :: responses[i].rawState.None?) ==>
            && late.drive.index == s.drive.index && late.drive.hasApproached == s.drive.hasApproached
            && late.drive.direction == s.drive.direction)
    decreases |responses|
  {
    hide HandleEvent, Advanced, CommandFor, FlagsAfter, Apply;
    if responses != [] {
      UndisturbedPass(settings, s, true, responses[0]);
      var s' := Run(settings, s, PassMoves(true, responses[0]));
      ResetMayComeLate(settings, s', responses[1..]);
      RunAppend(settings, s, PassMoves(true, responses[0]), Passes(responses[1..]));
      var inputs := PassInputs(s.shared, s.pending, responses);
      assert inputs[0] == R.Input(s.pending, Some(s.shared), responses[0]);
      assert inputs[1..] == PassInputs(s.shared, {}, responses[1..]);
      assert s'.drive == R.TickOn(settings, s.drive, inputs[0]);
      R.TickKeepsCommands(settings, s.drive, inputs[0]);
    }
  }

  const ORIGIN: MotionCommand := MotionCommand(0, 0, 0, 0)

  // The handheld takes write access, stores two commands and switches the power on.
  lemma PoweredUp(settings: Settings, limits: SystemLimits) returns (moves: seq<Move>)
    requires ValidLimits(limits)
    ensures AllEnabled(settings, InitialSystem(limits), moves)
    ensures
      var s := Run(settings, InitialSystem(limits), moves);
      && s.core.limits == limits && IsWriter(s.core, Hid) && s.task.Idle? && s.phase == AtSend
      && s.drive == DISCONNECTED && s.shared == DriveCommands(true, false, [ORIGIN, ORIGIN])
  {
    var s0 := InitialSystem(limits);
    var claim := FromController(Hid, RequestWriteAccess(0));
    var fill := FromController(Hid, UpsertCommandSet(1, None, None, [ORIGIN, ORIGIN]));
    var power := FromController(Hid, SetDrivePower(2, true));
    UndisturbedEvent(settings, s0, claim);
    var s1 := Run(settings, s0, EventMoves(claim));
    UndisturbedEvent(settings, s1, fill);
    var s2 := Run(settings, s1, EventMoves(fill));
    UndisturbedEvent(settings, s2, power);
    hide HandleEvent;
    RunAppend(settings, s1, EventMoves(fill), EventMoves(power));
    RunAppend(settings, s0, EventMoves(claim), EventMoves(fill) + EventMoves(power));
    moves := EventMoves(claim) + (EventMoves(fill) + EventMoves(power));
  }

  // The core has published a new list.
  lemma ThreePublished(settings: Settings, s: System, replace: Event)
    requires ValidLimits(s.core.limits) && IsWriter(s.core, Hid) && s.task.Idle? && s.phase == AtSend
    requires replace == FromController(Hid, UpsertCommandSet(3, None, None, [ORIGIN, ORIGIN, ORIGIN]))
    ensures AllEnabled(settings, s, [CoreReceives(replace), CoreAdvances])
    ensures
      var s' := Run(settings, s, [CoreReceives(replace), CoreAdvances]);
      && Replacing(s') && s'.phase == AtSend && s'.pending == s.pending && s'.drive == s.drive
      && s'.shared.commands == [ORIGIN, ORIGIN, ORIGIN]
  {
    var last := [CoreReceives(replace), CoreAdvances];
    var s' := Apply(settings, s, CoreReceives(replace));
    assert last[1..] == [CoreAdvances] && last[1..][1..] == [];
    RunCons(settings, s', last[1..]);
    RunCons(settings, s, last);
  }

  /** Such a state is reachable, with the drive in the middle of the old list. */
  lemma LateResetIsReachable(settings: Settings, limits: SystemLimits) returns (moves: seq<Move>)
    requires ValidLimits(limits)
    ensures AllEnabled(settings, InitialSystem(limits), moves)
    ensures
      var s := Run(settings, InitialSystem(limits), moves);
      && Replacing(s) && s.phase == AtSend && ResetIndex !in s.pending
      && s.drive.index == 1 && s.shared.commands == [ORIGIN, ORIGIN, ORIGIN] != s.drive.commands
  {
    hide HandleEvent, Computed, Replacing;
    var start := InitialSystem(limits);
    var ready := Controller.Response(Some(0x0880), Some(0), Some(0), Some((0, 0)), true);
    var replace := FromController(Hid, UpsertCommandSet(3, None, None, [ORIGIN, ORIGIN, ORIGIN]));
    var last := [CoreReceives(replace), CoreAdvances];
    var first := PoweredUp(settings, limits);
    var s := Run(settings, start, first);
    UndisturbedPass(settings, s, true, ready);
    AtOrigin(settings, AfterLock(AfterActions(AfterSend(s.drive), s.pending), s.shared), ready);
    ThreePublished(settings, Run(settings, s, PassMoves(true, ready)), replace);
    RunAppend(settings, s, PassMoves(true, ready), last);
    RunAppend(settings, start, first, PassMoves(true, ready) + last);
    moves := first + (PassMoves(true, ready) + last);
  }

  // On its target the drive steps to the next command.
  lemma AtOrigin(settings: Settings, c: ControllerState, ready: Response)
    requires c.powerEnabled && c.commands == [ORIGIN, ORIGIN] && c.index == 0
    requires ready == Controller.Response(Some(0x0880), Some(0), Some(0), Some((0, 0)), true)
    ensures Computed(settings, c, ready).index == 1 && Computed(settings, c, ready).commands == c.commands
  {
    hide CommandFor, FlagsAfter;
  }

  // ----- losing the writer -----

  // The move lets a writer switch the power on again.
  predicate PowersOn(s: System, move: Move)
    requires Enabled(s, move)
  {
    move.CoreAdvances? && s.task.stage == BeforeSection && StepOf(s.task).section == Some(SetPower(true))
  }

  predicate NeverPowersOn(settings: Settings, s: System, moves: seq<Move>)
    requires AllEnabled(settings, s, moves)
    decreases |moves|
  {
    moves != [] ==> !PowersOn(s, moves[0]) && NeverPowersOn(settings, Apply(settings, s, moves[0]), moves[1..])
  }

  // Neither power nor motion is asked of the drive.
  predicate Quiet(c: ControllerState) {
    SwitchOn !in c.flags && c.next.None?
  }

  // Every request computed in the run is quiet.
  predicate AllQuiet(settings: Settings, s: System, moves: seq<Move>)
    requires AllEnabled(settings, s, moves)
    decreases |moves|
  {
    moves != [] ==>
      && (moves[0].DriveComputes? ==> Quiet(Apply(settings, s, moves[0]).drive))
      && AllQuiet(settings, Apply(settings, s, moves[0]), moves[1..])
  }

  lemma PowerStaysOffStep(settings: Settings, s: System, move: Move)
    requires Enabled(s, move) && !PowersOn(s, move) && !s.shared.powerEnabled
    ensures !Apply(settings, s, move).shared.powerEnabled
    ensures !s.drive.powerEnabled ==> !Apply(settings, s, move).drive.powerEnabled
  {
  }

  lemma {:induction false} PowerStaysOff(settings: Settings, s: System, moves: seq<Move>)
    requires AllEnabled(settings, s, moves) && NeverPowersOn(settings, s, moves) && !s.shared.powerEnabled
    ensures !Run(settings, s, moves).shared.powerEnabled
    decreases |moves|
  {
    if moves != [] {
      PowerStaysOffStep(settings, s, moves[0]);
      PowerStaysOff(settings, Apply(settings, s, moves[0]), moves[1..]);
    }
  }

  lemma {:induction false} QuietOnceFetched(settings: Settings, s: System, moves: seq<Move>)
    requires ValidSettings(settings) && Invariant(s) && AllEnabled(settings, s, moves) && NeverPowersOn(settings, s, moves)
    requires !s.shared.powerEnabled && !s.drive.powerEnabled
    ensures AllQuiet(settings, s, moves)
    decreases |moves|
  {
    if moves != [] {
      InvariantStep(settings, s, moves[0]);
      PowerStaysOffStep(settings, s, moves[0]);
      if moves[0].DriveComputes? {
        ComputedWithin(settings, s.drive, moves[0].response, s.core.limits);
      }
      QuietOnceFetched(settings, Apply(settings, s, moves[0]), moves[1..]);
    }
  }

  /**
    The writer disconnects: the core's section switches the power off, `early` is whatever happens
    until the drive next gets the lock, `late` whatever happens after that. Unless a later writer
    switches the power on, no request computed in `late` asks for power or motion.
   */
  lemma WriterLossStopsDrive(settings: Settings, s: System, early: seq<Move>, late: seq<Move>)
    requires ValidSettings(settings) && Invariant(s) && s.task.Handling? && s.task.stage == BeforeSection
    requires WriterLost(s.task.before, s.task.event)
    requires AllEnabled(settings, AdvanceCore(s), early)
    requires NeverPowersOn(settings, AdvanceCore(s), early)
    requires Run(settings, AdvanceCore(s), early).phase == AtLock
    requires
      var fetched := Apply(settings, Run(settings, AdvanceCore(s), early), DriveTriesLock(true));
      AllEnabled(settings, fetched, late) && NeverPowersOn(settings, fetched, late)
    ensures
      var fetched := Apply(settings, Run(settings, AdvanceCore(s), early), DriveTriesLock(true));
      AllQuiet(settings, fetched, late)
  {
    InvariantStep(settings, s, CoreAdvances);
    LimitsHold(settings, AdvanceCore(s), early);
    PowerStaysOff(settings, AdvanceCore(s), early);
    var before := Run(settings, AdvanceCore(s), early);
    InvariantStep(settings, before, DriveTriesLock(true));
    QuietOnceFetched(settings, Apply(settings, before, DriveTriesLock(true)), late);
  }
}

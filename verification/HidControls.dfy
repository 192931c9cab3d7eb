/**
  What the knobs and buttons of the handheld do, in their own terms: by how much a movement changes what,
  and what a click makes of the drive.
 */
module HidControls {
  import opened Base
  import opened Messages
  import opened Controller
  import opened Core
  import opened HidMessages
  import opened HidUi
  import opened HidMirror

  // ----- knobs -----

  // The value moved by an amount in the direction of the knob, and kept from 0 to the limit.
  predicate Moved(after: int, before: int, delta: i8, amount: nat, limit: int) {
    var free := if delta >= 0 then before + amount else before - amount;
    && (0 <= free <= limit ==> after == free)
    && (free < 0 ==> after == 0)
    && (limit < free ==> after == limit)
  }

  predicate WithinI32(ui: Ui) {
    && IsI32(ui.first.position) && IsI32(ui.first.velocity) && IsI32(ui.first.acceleration)
    && IsI32(ui.second.position) && IsI32(ui.second.velocity) && IsI32(ui.second.acceleration)
  }

  lemma ScaledAmounts(delta: i8)
    ensures Quadratic(delta) == SignedBy(delta, 10_000 * (delta * delta))
    ensures Cubic(delta) == 1_000 * (delta * delta * delta)
    ensures 0 <= delta * delta <= 128 * 128
    ensures 0 <= Abs(delta * delta * delta) <= 128 * 128 * 128
  {
    var a: int := Abs(delta);
    MulMono(a, a, 128);
    MulMono(128, a, 128);
    MulMono(a * a, a, 128);
    MulMono(128, a * a, 128 * 128);
    MulMono(a, 0, a);
    MulMono(a * a, 0, a);
    if delta < 0 {
      assert delta * a == -(a * a) && delta * delta == a * a;
      assert delta * a * a == -(a * a * a) && delta * delta * delta == -(a * a * a);
    }
  }

  function SignedBy(delta: i8, amount: int): int {
    if delta >= 0 then amount else -amount
  }

  lemma ShiftedIsMoved(value: int, delta: i8, amount: nat, limit: int)
    requires IsI32(value) && 0 <= limit <= I32_MAX
    ensures Moved(Shifted(value, SignedBy(delta, amount), limit), value, delta, amount, limit)
  {
  }

  /**
    Encoder 0 moves the start by 10000 times the square of the movement. The end follows by the same
    amount while the start is held, and is otherwise pushed along when the start passes it.
   */
  lemma StartKnob(ui: Ui, delta: i8, limits: SystemLimits)
    requires ValidLimits(limits) && WithinI32(ui) && delta != 0
    ensures
      var ui', amount := Turn(ui, 0, delta, limits).ui, 10_000 * (delta * delta);
      && 0 < amount
      && Moved(ui'.first.position, ui.first.position, delta, amount, limits.position)
      && (if ui.holdingStart then Moved(ui'.second.position, ui.second.position, delta, amount, limits.position)
          else ui'.second.position == Max(ui'.first.position, ui.second.position))
      && ui' == ui.(first := ui.first.(position := ui'.first.position),
                    second := ui.second.(position := ui'.second.position))
  {
    hide Shifted, Moved;
    SquareIsPositive(delta);
    ScaledAmounts(delta);
    ShiftedIsMoved(ui.first.position, delta, 10_000 * (delta * delta), limits.position);
    ShiftedIsMoved(ui.second.position, delta, 10_000 * (delta * delta), limits.position);
    hide Quadratic;
  }

  lemma SquareIsPositive(delta: int)
    requires delta != 0
    ensures 0 < delta * delta
  {
    if delta < 0 { assert delta * delta == (-delta) * (-delta); }
  }

  /** Encoder 1 moves the end in the same way, and the start along or before it. */
  lemma EndKnob(ui: Ui, delta: i8, limits: SystemLimits)
    requires ValidLimits(limits) && WithinI32(ui) && delta != 0
    ensures
      var ui', amount := Turn(ui, 1, delta, limits).ui, 10_000 * (delta * delta);
      && 0 < amount
      && Moved(ui'.second.position, ui.second.position, delta, amount, limits.position)
      && (if ui.holdingStart then Moved(ui'.first.position, ui.first.position, delta, amount, limits.position)
          else ui'.first.position == Min(ui.first.position, ui'.second.position))
      && ui' == ui.(first := ui.first.(position := ui'.first.position),
                    second := ui.second.(position := ui'.second.position))
  {
    hide Shifted, Moved;
    SquareIsPositive(delta);
    ScaledAmounts(delta);
    ShiftedIsMoved(ui.first.position, delta, 10_000 * (delta * delta), limits.position);
    ShiftedIsMoved(ui.second.position, delta, 10_000 * (delta * delta), limits.position);
    hide Quadratic;
  }

  /** Encoder 2 moves the velocity of both commands, from that of the first. */
  lemma VelocityKnob(ui: Ui, delta: i8, limits: SystemLimits)
    requires ValidLimits(limits) && WithinI32(ui) && delta != 0
    ensures
      var ui', amount := Turn(ui, 2, delta, limits).ui, 10_000 * (delta * delta);
      && 0 < amount
      && Moved(ui'.first.velocity, ui.first.velocity, delta, amount, limits.velocity)
      && ui' == ui.(first := ui.first.(velocity := ui'.first.velocity),
                    second := ui.second.(velocity := ui'.first.velocity))
  {
    hide Shifted, Moved;
    SquareIsPositive(delta);
    ScaledAmounts(delta);
    ShiftedIsMoved(ui.first.velocity, delta, 10_000 * (delta * delta), limits.velocity);
    hide Quadratic;
  }

  /**
    Encoder 3 moves the acceleration of both commands, from that of the first, by 1000 times the cube of the
    movement, and the deceleration with it up to its limit.
   */
  lemma AccelerationKnob(ui: Ui, delta: i8, limits: SystemLimits)
    requires ValidLimits(limits) && WithinI32(ui) && delta != 0
    ensures
      var ui', amount := Turn(ui, 3, delta, limits).ui, 1_000 * Abs(delta * delta * delta);
      && 0 < amount
      && Moved(ui'.first.acceleration, ui.first.acceleration, delta, amount, limits.acceleration)
      && ui'.first.deceleration == Min(ui'.first.acceleration, limits.deceleration)
      && ui' == ui.(
           first := ui.first.(acceleration := ui'.first.acceleration, deceleration := ui'.first.deceleration),
           second := ui.second.(acceleration := ui'.first.acceleration, deceleration := ui'.first.deceleration))
  {
    SquareIsPositive(delta);
    ScaledAmounts(delta);
    CubeHasSign(delta);
    hide Moved, Cubic;
    ShiftedIsMoved(ui.first.acceleration, delta, 1_000 * Abs(delta * delta * delta), limits.acceleration);
  }

  lemma CubeHasSign(delta: int)
    requires delta != 0
    ensures if delta > 0 then 0 < delta * delta * delta else delta * delta * delta < 0
  {
    SquareIsPositive(delta);
    if delta > 0 { MulMono(delta * delta, 1, delta); } else { MulMono(delta * delta, delta, -1); }
  }

  /** No other encoder does anything, nor does one that was not moved. */
  lemma NoKnob(ui: Ui, encoder: nat, delta: i8, limits: SystemLimits)
    requires ValidLimits(limits) && (delta == 0 || 4 <= encoder)
    ensures Turn(ui, encoder, delta, limits) == Outcome(ui, [])
  {
  }

  /** Turning a knob up never lowers what it sets, and raises it below the limit; down, the other way round. */
  lemma KnobsTurnTheRightWay(after: int, before: int, delta: i8, amount: nat, limit: int)
    requires Moved(after, before, delta, amount, limit) && 0 <= before <= limit && 0 < amount
    ensures delta > 0 ==> before <= after && (before < limit ==> before < after)
    ensures delta < 0 ==> after <= before && (0 < before ==> after < before)
  {
  }

  // ----- buttons -----

  function AfterReaction(w: World, ui: Ui, event: HidInputEvent): World
    requires ValidLimits(w.core.limits)
  {
    var outcome := React(ui, event, w.core.state.feedback.driveState);
    HandledAll(w, outcome.messages, |outcome.messages|)
  }

  /**
    A click on encoder 0 switches the power on when the drive is off, off when it is preparing, paused or
    moving, and acknowledges an error. Nothing else of the shared state changes.
   */
  lemma PowerButton(w: World, ui: Ui)
    requires ValidLimits(w.core.limits) && IsWriter(w.core, Hid)
    ensures React(ui, ButtonClick(0), w.core.state.feedback.driveState).ui == ui
    ensures
      var w', before := AfterReaction(w, ui, ButtonClick(0)), w.core.state.feedback.driveState;
      && w'.core == w.core && w'.shared.commands == w.shared.commands
      && (before == Off ==> w'.shared.powerEnabled && w'.shared.motionEnabled == w.shared.motionEnabled)
      && (before in {Preparing, Paused, Moving} ==> !w'.shared.powerEnabled && !w'.shared.motionEnabled)
      && (before in {Errored, Disconnected} ==> w'.shared == w.shared)
      && w'.pending == w.pending + if before == Errored then {AckError} else {}
  {
    var messages := React(ui, ButtonClick(0), w.core.state.feedback.driveState).messages;
    if messages != [] { OneHandled(w, messages[0]); assert messages == [messages[0]]; }
  }

  lemma OneHandled(w: World, message: ClientMessage)
    requires ValidLimits(w.core.limits)
    ensures HandledAll(w, [message], 1) == After(w, HandleMessage(w.core, Hid, message))
  {
    hide HandleMessage;
    assert HandledAll(w, [message], 0) == w;
  }

  /** A click on encoder 1 resumes a paused drive and pauses a moving one, in the command it is at. */
  lemma PauseButton(w: World, ui: Ui)
    requires ValidLimits(w.core.limits) && IsWriter(w.core, Hid)
    ensures React(ui, ButtonClick(1), w.core.state.feedback.driveState).ui == ui
    ensures
      var w', before := AfterReaction(w, ui, ButtonClick(1)), w.core.state.feedback.driveState;
      && w'.core == w.core && w'.pending == w.pending
      && w'.shared.powerEnabled == w.shared.powerEnabled && w'.shared.commands == w.shared.commands
      && (before == Paused ==> w'.shared.motionEnabled)
      && (before == Moving ==> !w'.shared.motionEnabled)
      && (before !in {Paused, Moving} ==> w'.shared == w.shared)
  {
    var messages := React(ui, ButtonClick(1), w.core.state.feedback.driveState).messages;
    if messages != [] { OneHandled(w, messages[0]); assert messages == [messages[0]]; }
  }

  /**
    A click on encoder 3 sets both commands to rest at zero, at 1 m/s and 0.5 m/s^2, replaces the active set
    by them and starts it over.
   */
  lemma ZeroButton(w: World, ui: Ui, driveState: DriveState)
    requires ValidLimits(w.core.limits) && IsWriter(w.core, Hid) && driveState == w.core.state.feedback.driveState
    ensures
      var zero := MotionCommand(0, 1_000_000, 50_000, 50_000);
      var w' := AfterReaction(w, ui, ButtonClick(3));
      && React(ui, ButtonClick(3), driveState).ui == ui.(first := zero, second := zero)
      && w'.core.active == [zero, zero] && w'.core.version == w.core.version + 1
      && w'.pending == w.pending + {ResetIndex}
      && w'.shared.powerEnabled == w.shared.powerEnabled && w'.shared.motionEnabled == w.shared.motionEnabled
  {
    var messages := React(ui, ButtonClick(3), driveState).messages;
    OneHandled(w, messages[0]);
    assert messages == [messages[0]];
  }

  /**
    Holding encoder 0 holds the start, letting go releases it. A click on encoder 2 resets the handheld. Every
    other event of the handheld leaves core, drive and commands alone.
   */
  lemma OtherButtons(w: World, ui: Ui, event: HidInputEvent)
    requires ValidLimits(w.core.limits)
    requires event !in {ButtonClick(0), ButtonClick(1), ButtonClick(3)}
    ensures AfterReaction(w, ui, event) == w
    ensures
      React(ui, event, w.core.state.feedback.driveState).ui
      == ui.(holdingStart := if event == ButtonHoldStart(0) then true
                             else if event == ButtonHoldEnd(0) then false else ui.holdingStart)
    ensures Hardware(Reset) in Resets([event], 1) <==> event == ButtonClick(2)
  {
    assert Resets([event], 0) == [];
  }
}

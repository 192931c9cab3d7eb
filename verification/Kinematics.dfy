/**
  The pure arithmetic of the drive loop: the two predictors and the deceleration clamp.
  Positions, velocities and accelerations are the raw units of the drive, in which
  stopping from v within a distance s at deceleration d means v * v <= 2 * d * s.
 */
module Kinematics {
  import opened Base

  function RawPosition(position: int, velocity: int, acceleration: int, us: nat): int {
    position
    + TruncDiv(velocity * us * 10, 1_000_000)
    + TruncDiv(acceleration * us * us * 50, 1_000_000_000_000)
  }

  function PredictPosition(position: int, velocity: int, acceleration: int, us: nat): int {
    WrapI32(RawPosition(position, velocity, acceleration, us))
  }

  function RawVelocity(velocity: int, acceleration: int, us: nat): int {
    velocity + TruncDiv(acceleration * us, 100_000)
  }

  function PredictVelocity(velocity: int, acceleration: int, us: nat): int {
    WrapI32(RawVelocity(velocity, acceleration, us))
  }

  /**
    The predictors are the laws of uniform acceleration, in units of 1e-7 m, 1e-6 m/s, 1e-5 m/s^2 and
    1e-6 s, with an error of less than one unit for each division.
   */
  lemma PredictorsAreKinematics(position: int, velocity: int, acceleration: int, us: nat)
    ensures
      var exact := 10_000_000 * velocity * us + 50 * acceleration * us * us;
      Abs(1_000_000_000_000 * (RawPosition(position, velocity, acceleration, us) - position) - exact)
      < 2 * 1_000_000_000_000
    ensures Abs(100_000 * (RawVelocity(velocity, acceleration, us) - velocity) - acceleration * us) < 100_000
  {
    TruncNear(velocity * us * 10, 1_000_000);
    TruncNear(acceleration * us * us * 50, 1_000_000_000_000);
    TruncNear(acceleration * us, 100_000);
    assert velocity * us * 10 * 1_000_000 == 10_000_000 * velocity * us;
    assert acceleration * us * us * 50 == 50 * acceleration * us * us;
  }

  lemma TruncNear(x: int, d: int)
    requires 0 < d
    ensures Abs(d * TruncDiv(x, d) - x) < d
  {
    var q := Abs(x) / d;
    assert d * q <= Abs(x) < d * q + d;
    if x < 0 { assert d * -q == -(d * q); }
  }

  function NormalizeDirection(direction: int): Option<int> {
    if direction == 0 then None else Some(Sign(direction))
  }

  predicate Opposed(displacement: int, velocity: int) {
    (velocity > 0 && displacement < 0) || (velocity < 0 && displacement > 0)
  }

  // Beyond the target in the approach direction; the velocity stands in for an unknown direction.
  predicate PastTarget(displacement: int, velocity: int, direction: Option<int>) {
    if direction.Some? && direction.value != 0 then Opposed(displacement, direction.value)
    else Opposed(displacement, velocity)
  }

  // What the clamp works with: a distance to stop in, or an overshoot beyond the margin.
  datatype Stopping = Recovering(excess: nat) | Within(room: nat)

  function StoppingRoom(
    displacement: int, velocity: int, requested: int, direction: Option<int>, margin: nat
  ): Stopping {
    if PastTarget(displacement, velocity, direction) then
      if Abs(displacement) >= margin then Recovering(Abs(displacement) - margin)
      else Within(margin - Abs(displacement))
    else
      var withMargin := Abs(displacement) + margin;
      Within(if requested > 0 && velocity * velocity <= 2 * requested * withMargin
             then withMargin else Abs(displacement))
  }

  function RecoveryDeceleration(excess: nat, margin: nat, hardMin: int, hardMax: int): int {
    var t := Min(excess * 1000 / Max(margin, 1), 1000);
    Min(hardMin + (hardMax - hardMin) * t / 1000, I32_MAX)
  }

  // The deceleration needed to stop from `velocity` within `room`, rounded up.
  function NeededDeceleration(velocity: int, room: int): int
    requires 0 < room
  {
    (velocity * velocity + 2 * room - 1) / (2 * room)
  }

  function ClampDeceleration(
    position: int, velocity: int, target: int, requested: int, direction: Option<int>,
    overshootMargin: int, hardMin: int, hardMax: int
  ): int {
    var margin := Abs(overshootMargin);
    match StoppingRoom(target - position, velocity, requested, direction, margin)
    case Recovering(excess) => RecoveryDeceleration(excess, margin, hardMin, hardMax)
    case Within(room) =>
      if velocity == 0 || room == 0 then requested
      else if requested > 0 && velocity * velocity <= 2 * requested * room then requested
      else Min(NeededDeceleration(velocity, room), I32_MAX)
  }

  // The gate on an early handoff: a full-force stop would still end inside the margin.
  predicate CanRecover(distance: nat, velocity: int, overshootMargin: int, hardMax: int) {
    var budget := distance + Abs(overshootMargin);
    budget == 0 || (hardMax != 0 && velocity * velocity <= 2 * hardMax * budget)
  }
}

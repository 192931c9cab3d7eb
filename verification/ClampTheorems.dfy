/** What one answer of the deceleration clamp promises. */
module ClampTheorems {
  import opened Base
  import opened Kinematics

  /** NeededDeceleration is the least deceleration that stops within the room. */
  lemma {:induction false} NeededIsLeast(velocity: int, room: int, d: int)
    requires 0 < room
    ensures NeededDeceleration(velocity, room) <= d <==> velocity * velocity <= 2 * d * room
  {
    var n := velocity * velocity;
    var q := NeededDeceleration(velocity, room);
    var k := 2 * room;
    assert k * q <= n + k - 1 < k * q + k;
    if q <= d {
      assert k * q <= k * d by { MulMono(k, q, d); }
      assert k * d == 2 * d * room;
    } else {
      assert k * (d + 1) <= k * q by { MulMono(k, d + 1, q); }
      assert k * (d + 1) == 2 * d * room + k;
    }
  }

  lemma SquareMono(x: int, y: int)
    requires Abs(x) <= Abs(y)
    ensures x * x <= y * y
  {
    MulMono(Abs(x), Abs(x), Abs(y));
    MulMono(Abs(y), Abs(x), Abs(y));
    assert x * x == Abs(x) * Abs(x) && y * y == Abs(y) * Abs(y);
  }

  lemma SquarePositive(x: int)
    requires x != 0
    ensures 0 < x * x
  {
    MulMono(Abs(x), 1, Abs(x));
    assert x * x == Abs(x) * Abs(x);
  }

  /**
    Outside recovery, for a moving drive with room left, the answer is the least integer at or
    above the request that stops within the room, cut off at i32::MAX.
   */
  lemma ClampIsExact(
    position: int, velocity: int, target: int, requested: int, direction: Option<int>,
    overshootMargin: int, hardMin: int, hardMax: int
  )
    requires 0 <= requested <= I32_MAX && velocity != 0
    requires StoppingRoom(target - position, velocity, requested, direction, Abs(overshootMargin)).Within?
    requires StoppingRoom(target - position, velocity, requested, direction, Abs(overshootMargin)).room > 0
    ensures
      var room := StoppingRoom(target - position, velocity, requested, direction, Abs(overshootMargin)).room;
      var r := ClampDeceleration(position, velocity, target, requested, direction, overshootMargin, hardMin, hardMax);
      && requested <= r <= I32_MAX
      && (velocity * velocity <= 2 * r * room || r == I32_MAX)
      && (forall d {:trigger 2 * d * room} :: requested <= d && velocity * velocity <= 2 * d * room ==> r <= d)
  {
    var room := StoppingRoom(target - position, velocity, requested, direction, Abs(overshootMargin)).room;
    var r := ClampDeceleration(position, velocity, target, requested, direction, overshootMargin, hardMin, hardMax);
    SquarePositive(velocity);
    NeededIsLeast(velocity, room, requested);
    NeededIsLeast(velocity, room, r);
    forall d {:trigger 2 * d * room} | requested <= d && velocity * velocity <= 2 * d * room
      ensures r <= d
    {
      NeededIsLeast(velocity, room, d);
    }
  }

  // How far the drive may still travel, in its approach direction, before target + margin.
  function AllowedTravel(displacement: int, velocity: int, direction: Option<int>, margin: nat): int {
    if PastTarget(displacement, velocity, direction) then margin - Abs(displacement)
    else Abs(displacement) + margin
  }

  /**
    The promise in the function's documentation, that the answer is enough to stop before the
    margin is used up, and exactly when the code keeps it: the request was already enough, or the
    drive is not exactly on the target (where a zero budget returns the request unchanged) nor
    beyond the margin, and i32::MAX is enough.
   */
  lemma AnswerSufficesExactlyWhen(
    position: int, velocity: int, target: int, requested: int, direction: Option<int>,
    overshootMargin: int, hardMin: int, hardMax: int
  )
    requires 0 <= requested <= I32_MAX && velocity != 0
    requires 0 <= hardMin <= hardMax
    ensures
      var margin := Abs(overshootMargin);
      var travel := AllowedTravel(target - position, velocity, direction, margin);
      var r := ClampDeceleration(position, velocity, target, requested, direction, overshootMargin, hardMin, hardMax);
      velocity * velocity <= 2 * r * travel
      <==>
      velocity * velocity <= 2 * requested * travel
      || (position != target && 0 < travel && velocity * velocity <= 2 * I32_MAX * travel)
  {
    var margin := Abs(overshootMargin);
    var displacement := target - position;
    var travel := AllowedTravel(displacement, velocity, direction, margin);
    var r := ClampDeceleration(position, velocity, target, requested, direction, overshootMargin, hardMin, hardMax);
    SquarePositive(velocity);
    match StoppingRoom(displacement, velocity, requested, direction, margin)
    case Recovering(excess) =>
      RecoveryInRange(excess, margin, hardMin, hardMax);
      assert travel <= 0;
      NonPositiveProduct(r, travel);
      NonPositiveProduct(requested, travel);
    case Within(room) =>
      assert room <= travel;
      if room > 0 {
        NeededIsLeast(velocity, room, requested);
        NeededIsLeast(velocity, room, r);
        NeededIsLeast(velocity, travel, r);
        NeededIsLeast(velocity, travel, requested);
        NeededIsLeast(velocity, travel, I32_MAX);
        NeededShrinks(velocity, room, travel);
      }
  }

  lemma NonPositiveProduct(a: int, b: int)
    requires 0 <= a && b <= 0
    ensures 2 * a * b <= 0
  {
  }

  lemma NeededShrinks(velocity: int, small: int, large: int)
    requires 0 < small <= large
    ensures NeededDeceleration(velocity, large) <= NeededDeceleration(velocity, small)
  {
    var d := NeededDeceleration(velocity, small);
    NeededIsLeast(velocity, small, d);
    assert 0 <= d by { NeededIsLeast(velocity, small, -1); NeededNonNegative(velocity, small); }
    MulMono(2 * d, small, large);
    NeededIsLeast(velocity, large, d);
  }

  lemma NeededNonNegative(velocity: int, room: int)
    requires 0 < room
    ensures 0 <= NeededDeceleration(velocity, room)
  {
    assert 0 <= velocity * velocity by { if velocity != 0 { SquarePositive(velocity); } }
  }

  /** With a known approach direction, going faster never lowers the answer. */
  lemma ClampMonotoneInSpeed(
    position: int, slow: int, fast: int, target: int, requested: int, direction: int,
    overshootMargin: int, hardMin: int, hardMax: int
  )
    requires 0 <= requested <= I32_MAX && direction != 0 && Abs(slow) <= Abs(fast)
    ensures ClampDeceleration(position, slow, target, requested, Some(direction), overshootMargin, hardMin, hardMax)
         <= ClampDeceleration(position, fast, target, requested, Some(direction), overshootMargin, hardMin, hardMax)
  {
    SquareMono(slow, fast);
    var margin := Abs(overshootMargin);
    var slowRoom := StoppingRoom(target - position, slow, requested, Some(direction), margin);
    var fastRoom := StoppingRoom(target - position, fast, requested, Some(direction), margin);
    if slowRoom.Within? && fastRoom.room > 0 && fast != 0 {
      var r := ClampDeceleration(position, fast, target, requested, Some(direction), overshootMargin, hardMin, hardMax);
      NeededIsLeast(fast, fastRoom.room, requested);
      NeededIsLeast(fast, fastRoom.room, r);
      if slowRoom.room == fastRoom.room {
        NeededIsLeast(slow, slowRoom.room, requested);
        NeededIsLeast(slow, slowRoom.room, NeededDeceleration(fast, fastRoom.room));
        NeededIsLeast(fast, fastRoom.room, NeededDeceleration(fast, fastRoom.room));
      }
    }
  }

  lemma RecoveryInRange(excess: nat, margin: nat, hardMin: int, hardMax: int)
    requires 0 <= hardMin <= hardMax
    ensures Min(hardMin, I32_MAX) <= RecoveryDeceleration(excess, margin, hardMin, hardMax) <= Min(hardMax, I32_MAX)
    ensures 0 <= RecoveryDeceleration(excess, margin, hardMin, hardMax)
  {
    var t := Min(excess * 1000 / Max(margin, 1), 1000);
    assert 0 <= excess * 1000 / Max(margin, 1);
    MulMono(hardMax - hardMin, t, 1000);
    MulMono(hardMax - hardMin, 0, t);
  }

  // The scale, in thousandths, that the recovery branch works with.
  function RecoveryScale(excess: nat, margin: nat): int {
    Min(excess * 1000 / Max(margin, 1), 1000)
  }

  lemma RecoveryScaleMono(near: nat, far: nat, margin: nat)
    requires near <= far
    ensures 0 <= RecoveryScale(near, margin) <= RecoveryScale(far, margin) <= 1000
  {
    DivMono(0, near * 1000, Max(margin, 1));
    DivMono(near * 1000, far * 1000, Max(margin, 1));
  }

  lemma RecoveryScaleTops(far: nat, margin: nat)
    requires margin <= far && 0 < far
    ensures RecoveryScale(far, margin) == 1000
  {
    var d := Max(margin, 1);
    DivMono(d * 1000, far * 1000, d);
    assert d * 1000 / d == 1000 by { DivExact(1000, d); }
  }

  // The recovery answer, as a function of the scale.
  lemma ScaledMono(tn: int, tf: int, range: int)
    requires 0 <= range && tn <= tf
    ensures range * tn / 1000 <= range * tf / 1000
  {
    MulMono(range, tn, tf);
    DivMono(range * tn, range * tf, 1000);
  }

  /**
    Beyond the margin the answer never falls as the overshoot grows and stays between the two hard
    limits.
   */
  lemma RecoveryScales(near: nat, far: nat, margin: nat, hardMin: int, hardMax: int)
    requires near <= far && 0 <= hardMin <= hardMax <= I32_MAX
    ensures hardMin <= RecoveryDeceleration(near, margin, hardMin, hardMax)
    ensures RecoveryDeceleration(near, margin, hardMin, hardMax) <= RecoveryDeceleration(far, margin, hardMin, hardMax)
    ensures RecoveryDeceleration(far, margin, hardMin, hardMax) <= hardMax
  {
    RecoveryInRange(near, margin, hardMin, hardMax);
    RecoveryInRange(far, margin, hardMin, hardMax);
    RecoveryScaleMono(near, far, margin);
    ScaledMono(RecoveryScale(near, margin), RecoveryScale(far, margin), hardMax - hardMin);
  }

  /** It is the smaller hard limit at the margin and the larger one from twice the margin on. */
  lemma RecoveryEnds(far: nat, margin: nat, hardMin: int, hardMax: int)
    requires 0 <= hardMin <= hardMax <= I32_MAX
    ensures margin > 0 ==> RecoveryDeceleration(0, margin, hardMin, hardMax) == hardMin
    ensures margin <= far && 0 < far ==> RecoveryDeceleration(far, margin, hardMin, hardMax) == hardMax
  {
    ScaledEnds(hardMax - hardMin);
    if margin > 0 { DivExact(0, margin); }
    if margin <= far && 0 < far {
      RecoveryScaleTops(far, margin);
    }
  }

  lemma ScaledEnds(range: int)
    ensures range * 0 / 1000 == 0 && range * 1000 / 1000 == range
  {
    assert range * 0 == 0;
    DivExact(range, 1000);
  }

  // How far the drive is beyond the target, in the approach direction or, if that is unknown, in that of
  // its motion.
  function Overshoot(position: int, velocity: int, target: int, direction: Option<int>): int {
    var heading := if direction.Some? && direction.value != 0 then direction.value else velocity;
    if heading > 0 then position - target else if heading < 0 then target - position else 0
  }

  // What is left to stop in: up to the target, to which the margin is added if the request then suffices;
  // beyond the target, the rest of the margin.
  function RoomLeft(over: int, square: int, requested: int, margin: nat): int {
    if over > 0 then margin - over
    else if square <= 2 * requested * (margin - over) then margin - over
    else -over
  }

  /**
    Not beyond the margin, a moving drive is answered with the least integer at or above the request that
    stops it in what is left, cut off at i32::MAX; if nothing is left, with the request. Motion back to
    the near side, against a known approach direction, is no overshoot.
   */
  lemma ClampInRoom(
    position: int, velocity: int, target: int, requested: int, direction: Option<int>,
    overshootMargin: int, hardMin: int, hardMax: int, d: int
  )
    requires 0 <= requested <= I32_MAX && velocity != 0
    requires
      var over := Overshoot(position, velocity, target, direction);
      over <= 0 || over < Abs(overshootMargin)
    ensures
      var over := Overshoot(position, velocity, target, direction);
      var room := RoomLeft(over, velocity * velocity, requested, Abs(overshootMargin));
      var r := ClampDeceleration(position, velocity, target, requested, direction, overshootMargin, hardMin, hardMax);
      if room == 0 then r == requested
      else
        && requested <= r <= I32_MAX
        && (velocity * velocity <= 2 * r * room || r == I32_MAX)
        && (requested <= d && velocity * velocity <= 2 * d * room ==> r <= d)
  {
    var margin, over := Abs(overshootMargin), Overshoot(position, velocity, target, direction);
    var room := RoomLeft(over, velocity * velocity, requested, margin);
    SquarePositive(velocity);
    assert StoppingRoom(target - position, velocity, requested, direction, margin) == Within(room);
    if room != 0 {
      ClampIsExact(position, velocity, target, requested, direction, overshootMargin, hardMin, hardMax);
    }
  }

  /** A drive that stands where it cannot be beyond the margin is answered with the request. */
  lemma ClampAtRest(
    position: int, target: int, requested: int, direction: Option<int>,
    overshootMargin: int, hardMin: int, hardMax: int
  )
    requires
      var over := Overshoot(position, 0, target, direction);
      over <= 0 || over < Abs(overshootMargin)
    ensures ClampDeceleration(position, 0, target, requested, direction, overshootMargin, hardMin, hardMax) == requested
  {
  }

  // Two roundings down, of the share in thousandths and of its product with the range.
  lemma RoundedShare(excess: nat, margin: nat, range: nat, share: int, raise: int)
    requires 0 < margin
    requires margin * share <= 1000 * excess < margin * share + margin
    requires 1000 * raise <= range * share < 1000 * raise + 1000
    ensures 1000 * (margin * raise) <= 1000 * (range * excess)
    ensures 1000 * (range * excess) < 1000 * (margin * raise) + margin * (range + 1000)
  {
    MulMono(margin, 1000 * raise, range * share);
    MulMono(margin, range * share + 1, 1000 * raise + 1000);
    MulMono(range, margin * share, 1000 * excess);
    MulMono(range, 1000 * excess, margin * share + margin);
    assert margin * (range * share) == range * (margin * share);
    assert margin * (1000 * raise) == 1000 * (margin * raise);
    assert range * (1000 * excess) == 1000 * (range * excess);
    assert margin * (range * share + 1) == margin * (range * share) + margin;
    assert margin * (1000 * raise + 1000) == 1000 * (margin * raise) + 1000 * margin;
    assert range * (margin * share + margin) == range * (margin * share) + range * margin;
    assert margin * (range + 1000) == range * margin + 1000 * margin;
  }

  lemma RecoveryShare(excess: nat, margin: nat, hardMin: int, hardMax: int) returns (share: int)
    requires 0 < margin && excess <= margin && 0 <= hardMin <= hardMax <= I32_MAX
    ensures margin * share <= 1000 * excess < margin * share + margin
    ensures
      var raise := RecoveryDeceleration(excess, margin, hardMin, hardMax) - hardMin;
      1000 * raise <= (hardMax - hardMin) * share < 1000 * raise + 1000
  {
    share := excess * 1000 / margin;
    MulMono(1000, excess, margin);
    if share > 1000 { MulMono(margin, 1001, share); }
    RecoveryInRange(excess, margin, hardMin, hardMax);
    var product := (hardMax - hardMin) * share;
    MulMono(hardMax - hardMin, 0, share);
    MulMono(hardMax - hardMin, share, 1000);
    assert 1000 * (product / 1000) <= product < 1000 * (product / 1000) + 1000;
    assert share >= 0 by { DivMono(0, excess * 1000, margin); }
  }

  /**
    Beyond the margin the answer grows linearly with the overshoot, from the smaller hard limit at the
    margin to the larger one at twice the margin, but for two roundings down: of the share in thousandths
    and of the deceleration. From there on it is the larger one.
   */
  lemma RecoveryIsLinear(
    position: int, velocity: int, target: int, requested: int, direction: Option<int>,
    overshootMargin: int, hardMin: int, hardMax: int
  )
    requires 0 <= hardMin <= hardMax <= I32_MAX
    requires 0 < Overshoot(position, velocity, target, direction)
    requires Abs(overshootMargin) <= Overshoot(position, velocity, target, direction)
    ensures
      var margin, over := Abs(overshootMargin), Overshoot(position, velocity, target, direction);
      var r := ClampDeceleration(position, velocity, target, requested, direction, overshootMargin, hardMin, hardMax);
      if 2 * margin <= over then r == hardMax
      else
        && 1000 * (margin * (r - hardMin)) <= 1000 * ((hardMax - hardMin) * (over - margin))
        && 1000 * ((hardMax - hardMin) * (over - margin))
           < 1000 * (margin * (r - hardMin)) + margin * (hardMax - hardMin + 1000)
  {
    hide RecoveryDeceleration;
    var margin, over := Abs(overshootMargin), Overshoot(position, velocity, target, direction);
    assert StoppingRoom(target - position, velocity, requested, direction, margin) == Recovering(over - margin);
    if 2 * margin <= over {
      RecoveryEnds(over - margin, margin, hardMin, hardMax);
    } else {
      var share := RecoveryShare(over - margin, margin, hardMin, hardMax);
      RoundedShare(over - margin, margin, hardMax - hardMin, share,
                   RecoveryDeceleration(over - margin, margin, hardMin, hardMax) - hardMin);
    }
  }

  function Mirrored(direction: Option<int>): Option<int> {
    if direction.Some? then Some(-direction.value) else None
  }

  /** Reflecting the whole picture leaves the answer as it is. */
  lemma ClampMirror(
    position: int, velocity: int, target: int, requested: int, direction: Option<int>,
    overshootMargin: int, hardMin: int, hardMax: int
  )
    ensures ClampDeceleration(-position, -velocity, -target, requested, Mirrored(direction),
                              overshootMargin, hardMin, hardMax)
         == ClampDeceleration(position, velocity, target, requested, direction, overshootMargin, hardMin, hardMax)
  {
    assert (-velocity) * (-velocity) == velocity * velocity;
    assert StoppingRoom(-target - -position, -velocity, requested, Mirrored(direction), Abs(overshootMargin))
        == StoppingRoom(target - position, velocity, requested, direction, Abs(overshootMargin));
  }
}

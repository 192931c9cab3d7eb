/**
  The drive loop computes in i64 and u64. Here each 64-bit operation is checked: None stands for an
  operation that leaves its type (a panic in a debug build, a wrapped value in a release build).
  Within the ranges the rest of the program guarantees, no operation does, and the results are those
  of Kinematics.
 */
module MachineArithmetic {
  import opened Base
  import opened Kinematics
  import opened ClampTheorems

  const TWO_63: int := 0x8000_0000_0000_0000
  const TWO_64: int := 0x1_0000_0000_0000_0000
  const TWO_31: int := 0x8000_0000

  predicate FitsI64(x: int) {
    -TWO_63 <= x < TWO_63
  }

  predicate FitsU64(x: int) {
    0 <= x < TWO_64
  }

  // `x as u64` for an i32, which sign-extends
  function AsU64(x: int): int {
    if x < 0 then x + TWO_64 else x
  }

  function SaturatingMul(x: int, y: int): int {
    Min(x * y, TWO_64 - 1)
  }

  // 2 * deceleration * room, both multiplications checked
  predicate ProductFits(deceleration: int, room: int) {
    FitsU64(2 * deceleration) && FitsU64(2 * deceleration * room)
  }

  function CheckedAnswer(velocity: int, requested: int, room: int): Option<int> {
    var square := velocity * velocity;
    var d := AsU64(requested);
    if velocity == 0 || room == 0 then Some(requested)
    else if d > 0 && !ProductFits(d, room) then None
    else if d > 0 && square <= 2 * d * room then Some(requested)
    else if !FitsU64(2 * room) || !FitsU64(square + 2 * room) || 2 * room <= 0 then None
    else Some(Min((square + 2 * room - 1) / (2 * room), I32_MAX))
  }

  function CheckedRecovery(excess: int, margin: int, hardMin: int, hardMax: int): Option<int> {
    var min, max := AsU64(hardMin), AsU64(hardMax);
    if !FitsU64(excess * 1000) then None else
    var t := Min(excess * 1000 / Max(margin, 1), 1000);
    if !FitsU64(max - min) || !FitsU64((max - min) * t) || !FitsU64(min + (max - min) * t / 1000) then None
    else Some(Min(min + (max - min) * t / 1000, I32_MAX))
  }

  function CheckedClamp(
    position: int, velocity: int, target: int, requested: int, direction: Option<int>,
    overshootMargin: int, hardMin: int, hardMax: int
  ): Option<int> {
    var displacement, margin, square := target - position, Abs(overshootMargin), velocity * velocity;
    if !FitsI64(displacement) || !FitsI64(square) then None
    else if PastTarget(displacement, velocity, direction) then
      if Abs(displacement) >= margin then CheckedRecovery(Abs(displacement) - margin, margin, hardMin, hardMax)
      else CheckedAnswer(velocity, requested, margin - Abs(displacement))
    else
      var withMargin, d := Abs(displacement) + margin, AsU64(requested);
      if !FitsU64(withMargin) || (d > 0 && !ProductFits(d, withMargin)) then None
      else CheckedAnswer(velocity, requested,
                         if d > 0 && square <= 2 * d * withMargin then withMargin else Abs(displacement))
  }

  // Waypoints in [0, limit] and an overshoot margin that leave room in an i32.
  predicate InRange(target: int, limit: int, overshootMargin: int) {
    0 <= target <= limit && limit + Abs(overshootMargin) <= TWO_31
  }

  lemma MulBound(x: int, y: int, xMax: int, yMax: int)
    requires 0 <= x <= xMax && 0 <= y <= yMax
    ensures 0 <= x * y <= xMax * yMax
  {
    MulMono(x, y, yMax);
    MulMono(yMax, x, xMax);
  }

  lemma SquareBound(v: int)
    requires IsI32(v)
    ensures 0 <= v * v <= 0x4000_0000_0000_0000
  {
    assert v * v == Abs(v) * Abs(v);
    MulBound(Abs(v), Abs(v), TWO_31, TWO_31);
  }

  lemma AnswerFits(velocity: int, requested: int, room: int)
    requires IsI32(velocity) && 0 <= requested <= I32_MAX && 0 <= room <= 2 * TWO_31
    ensures requested > 0 ==> ProductFits(requested, room)
    ensures CheckedAnswer(velocity, requested, room).Some?
  {
    SquareBound(velocity);
    MulBound(2 * requested, room, 2 * I32_MAX, 2 * TWO_31);
  }

  lemma RecoveryFits(excess: nat, margin: nat, hardMin: int, hardMax: int)
    requires excess <= 2 * TWO_31 && 0 <= hardMin <= hardMax <= I32_MAX
    ensures CheckedRecovery(excess, margin, hardMin, hardMax)
         == Some(RecoveryDeceleration(excess, margin, hardMin, hardMax))
  {
    var t := RecoveryScale(excess, margin);
    RecoveryScaleMono(excess, excess, margin);
    MulBound(hardMax - hardMin, t, I32_MAX, 1000);
  }

  /** The clamp never overflows, for any i32 feedback, and is the integer clamp. */
  lemma ClampNeverOverflows(
    position: int, velocity: int, target: int, requested: int, direction: Option<int>,
    overshootMargin: int, hardMin: int, hardMax: int, limit: int
  )
    requires IsI32(position) && IsI32(velocity) && InRange(target, limit, overshootMargin)
    requires 0 <= requested <= I32_MAX && 0 <= hardMin <= hardMax <= I32_MAX
    ensures CheckedClamp(position, velocity, target, requested, direction, overshootMargin, hardMin, hardMax)
         == Some(ClampDeceleration(position, velocity, target, requested, direction, overshootMargin, hardMin, hardMax))
  {
    var displacement, margin := target - position, Abs(overshootMargin);
    SquareBound(velocity);
    if PastTarget(displacement, velocity, direction) {
      if Abs(displacement) >= margin {
        RecoveryFits(Abs(displacement) - margin, margin, hardMin, hardMax);
      } else {
        AnswerFits(velocity, requested, margin - Abs(displacement));
      }
    } else {
      AnswerFits(velocity, requested, Abs(displacement) + margin);
      AnswerFits(velocity, requested, Abs(displacement));
    }
  }

  /** The range is needed: i32 feedback alone does not keep the products within a u64. */
  lemma WideRangeOverflows()
    ensures CheckedClamp(I32_MIN, 1, I32_MAX, I32_MAX, None, I32_MAX, 0, 0).None?
  {
  }

  function CheckedPosition(position: int, velocity: int, acceleration: int, us: nat): Option<int> {
    if FitsI64(velocity * us) && FitsI64(velocity * us * 10)
       && FitsI64(acceleration * us) && FitsI64(acceleration * us * us) && FitsI64(acceleration * us * us * 50)
       && FitsI64(position + TruncDiv(velocity * us * 10, 1_000_000))
       && FitsI64(RawPosition(position, velocity, acceleration, us))
    then Some(WrapI32(RawPosition(position, velocity, acceleration, us))) else None
  }

  function CheckedVelocity(velocity: int, acceleration: int, us: nat): Option<int> {
    if FitsI64(acceleration * us) && FitsI64(RawVelocity(velocity, acceleration, us))
    then Some(WrapI32(RawVelocity(velocity, acceleration, us))) else None
  }

  lemma ScaleBound(x: int, k: nat, kMax: nat)
    requires IsI32(x) && k <= kMax
    ensures Abs(x * k) <= TWO_31 * kMax
  {
    assert Abs(x * k) == Abs(x) * k by {
      if x < 0 { assert (-x) * k == -(x * k); MulMono(k, x, 0); } else { MulMono(k, 0, x); }
    }
    MulBound(Abs(x), k, TWO_31, kMax);
  }

  lemma DisplacementFits(acceleration: int, us: nat)
    requires IsI32(acceleration) && us <= 9_000
    ensures FitsI64(acceleration * us) && FitsI64(acceleration * us * us) && FitsI64(acceleration * us * us * 50)
    ensures Abs(TruncDiv(acceleration * us * us * 50, 1_000_000_000_000)) <= 8_700_000
  {
    ScaleBound(acceleration, us, 9_000);
    MulBound(us, us, 9_000, 9_000);
    ScaleBound(acceleration, us * us, 81_000_000);
    assert acceleration * (us * us) == acceleration * us * us;
  }

  lemma TravelFits(velocity: int, us: nat)
    requires IsI32(velocity) && us <= 9_000
    ensures FitsI64(velocity * us) && FitsI64(velocity * us * 10)
    ensures Abs(TruncDiv(velocity * us * 10, 1_000_000)) <= TWO_31
  {
    ScaleBound(velocity, us, 9_000);
  }

  /** Neither do the predictors, over three ticks of at most 3 ms. */
  lemma PredictorsNeverOverflow(position: int, velocity: int, acceleration: int, us: nat)
    requires IsI32(position) && IsI32(velocity) && IsI32(acceleration) && us <= 9_000
    ensures CheckedPosition(position, velocity, acceleration, us)
         == Some(PredictPosition(position, velocity, acceleration, us))
    ensures CheckedVelocity(velocity, acceleration, us) == Some(PredictVelocity(velocity, acceleration, us))
  {
    TravelFits(velocity, us);
    DisplacementFits(acceleration, us);
    ScaleBound(acceleration, us, 9_000);
  }

  /** The saturating product of the handoff gate decides what the unbounded inequality decides. */
  lemma SaturationIsHarmless(distance: nat, velocity: int, overshootMargin: int, hardMax: int)
    requires IsI32(velocity) && 0 <= hardMax <= I32_MAX
    ensures
      var budget := distance + Abs(overshootMargin);
      CanRecover(distance, velocity, overshootMargin, hardMax)
      == (budget == 0
          || (hardMax != 0 && velocity * velocity <= SaturatingMul(SaturatingMul(2, hardMax), budget)))
  {
    SquareBound(velocity);
  }

  // The handoff gate: whether a full-force stop would still end inside the margin.
  function CheckedGate(position: int, velocity: int, target: int, overshootMargin: int, hardMax: int): Option<bool> {
    var displacement, square := target - position, velocity * velocity;
    var budget, d := Abs(displacement) + Abs(overshootMargin), AsU64(hardMax);
    if !FitsI64(displacement) || !FitsI64(square) || !FitsU64(budget) then None
    else Some(budget == 0 || (d != 0 && square <= SaturatingMul(SaturatingMul(2, d), budget)))
  }

  /** Nor does the handoff gate overflow, and it decides as the unbounded one. */
  lemma GateNeverOverflows(position: int, velocity: int, target: int, overshootMargin: int, hardMax: int, limit: int)
    requires IsI32(position) && IsI32(velocity) && InRange(target, limit, overshootMargin)
    requires 0 <= hardMax <= I32_MAX
    ensures CheckedGate(position, velocity, target, overshootMargin, hardMax)
         == Some(CanRecover(Abs(target - position), velocity, overshootMargin, hardMax))
  {
    SquareBound(velocity);
    SaturationIsHarmless(Abs(target - position), velocity, overshootMargin, hardMax);
  }
}

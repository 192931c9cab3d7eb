/**
  Safety over whole runs: a drive that slows at least as hard as the clamp demands, tick after
  tick, never passes its target by more than the margin.
 */
module ClosedLoop {
  import opened Base
  import opened Kinematics
  import opened ClampTheorems

  // One approach to one waypoint.
  datatype Leg = Leg(
    target: int, requested: int, direction: Option<int>, overshootMargin: int, hardMin: int, hardMax: int)

  datatype Sample = Sample(position: int, velocity: int)

  function Demand(leg: Leg, s: Sample): int {
    ClampDeceleration(s.position, s.velocity, leg.target, leg.requested, leg.direction,
                      leg.overshootMargin, leg.hardMin, leg.hardMax)
  }

  function Stop(leg: Leg, s: Sample): Stopping {
    StoppingRoom(leg.target - s.position, s.velocity, leg.requested, leg.direction, Abs(leg.overshootMargin))
  }

  function Toward(up: bool, x: int): int {
    if up then x else -x
  }

  // The distance left to the target, negative beyond it.
  function Ahead(leg: Leg, up: bool, s: Sample): int {
    Toward(up, leg.target - s.position)
  }

  predicate Moving(up: bool, s: Sample) {
    0 < Toward(up, s.velocity)
  }

  // The drive moves on without turning back, and loses at least the energy that the deceleration takes
  // over the distance travelled.
  predicate Obeys(deceleration: int, up: bool, s: Sample, s': Sample) {
    var travelled := Toward(up, s'.position - s.position);
    && 0 <= travelled
    && 0 <= Toward(up, s.velocity) && 0 <= Toward(up, s'.velocity)
    && (s.velocity == 0 ==> travelled == 0)
    && s'.velocity * s'.velocity + 2 * deceleration * travelled <= s.velocity * s.velocity
  }

  predicate EnergyStep(leg: Leg, up: bool, s: Sample, s': Sample) {
    Obeys(Demand(leg, s), up, s, s')
  }

  predicate IsRun(leg: Leg, up: bool, run: seq<Sample>) {
    && run != []
    && forall i | 0 < i < |run| :: EnergyStep(leg, up, run[i - 1], run[i])
  }

  predicate KnowsDirection(leg: Leg, up: bool) {
    leg.direction.Some? ==> leg.direction.value == 0 || Sign(leg.direction.value) == Toward(up, 1)
  }

  // The leg as the program configures it.
  predicate ValidLeg(leg: Leg, up: bool) {
    0 <= leg.requested <= I32_MAX && KnowsDirection(leg, up)
  }

  // i32::MAX up to the target and the request beyond it stop the drive before the margin is used up;
  // beyond the target, i32::MAX does.
  predicate CanBeHeld(square: int, ahead: int, requested: int, margin: nat) {
    if ahead >= 0 then square <= 2 * I32_MAX * ahead + 2 * requested * margin
    else square <= 2 * I32_MAX * (margin + ahead)
  }

  // Within the bound and, if moving toward it, able to be held there.
  predicate Held(leg: Leg, up: bool, s: Sample) {
    && 0 <= Abs(leg.overshootMargin) + Ahead(leg, up, s)
    && (Moving(up, s) ==>
          CanBeHeld(s.velocity * s.velocity, Ahead(leg, up, s), leg.requested, Abs(leg.overshootMargin)))
  }

  predicate GoodStart(leg: Leg, up: bool, s: Sample) {
    ValidLeg(leg, up) && Held(leg, up, s)
  }

  // ----- one answer -----

  // The room that the clamp works with, for a drive that moves toward the target or away from it beyond.
  lemma StopAhead(leg: Leg, up: bool, s: Sample)
    requires KnowsDirection(leg, up) && Moving(up, s)
    ensures
      var ahead, margin := Ahead(leg, up, s), Abs(leg.overshootMargin);
      Stop(leg, s) ==
      if ahead < 0 then if margin + ahead <= 0 then Recovering(-(margin + ahead)) else Within(margin + ahead)
      else Within(
        if leg.requested > 0 && s.velocity * s.velocity <= 2 * leg.requested * (ahead + margin) then ahead + margin
        else ahead)
  {
  }

  lemma WithinIsExact(leg: Leg, s: Sample, d: int)
    requires 0 <= leg.requested <= I32_MAX && s.velocity != 0
    requires Stop(leg, s).Within? && 0 < Stop(leg, s).room
    ensures
      var room, square, r := Stop(leg, s).room, s.velocity * s.velocity, Demand(leg, s);
      && leg.requested <= r <= I32_MAX
      && (square <= 2 * r * room || r == I32_MAX)
      && (leg.requested <= d && square <= 2 * d * room ==> r <= d)
  {
    hide ClampDeceleration, StoppingRoom;
    ClampIsExact(s.position, s.velocity, leg.target, leg.requested, leg.direction,
                 leg.overshootMargin, leg.hardMin, leg.hardMax);
  }

  lemma LeastAnswer(square: nat, room: nat, r: int)
    requires 0 < square && 0 < room && r <= I32_MAX
    requires square <= 2 * r * room || r == I32_MAX
    ensures 0 < r
    ensures square <= 2 * I32_MAX * room ==> square <= 2 * r * room
    ensures 2 * I32_MAX * room < square ==> r == I32_MAX
  {
    if r <= 0 { NonPositiveProduct(room, r); }
    MulMono(room, 2 * r, 2 * I32_MAX);
  }

  // What the answer does in that room; d is any deceleration to compare it with.
  lemma AnswerWithin(leg: Leg, up: bool, s: Sample, d: int)
    requires ValidLeg(leg, up) && Moving(up, s) && Stop(leg, s).Within? && 0 < Stop(leg, s).room
    ensures
      var room, square, r := Stop(leg, s).room, s.velocity * s.velocity, Demand(leg, s);
      && leg.requested <= r <= I32_MAX && 0 < r
      && (square <= 2 * I32_MAX * room ==> square <= 2 * r * room)
      && (2 * I32_MAX * room < square ==> r == I32_MAX)
      && (leg.requested <= d && square <= 2 * d * room ==> r <= d)
  {
    hide Demand, Stop;
    SquarePositive(s.velocity);
    WithinIsExact(leg, s, d);
    LeastAnswer(s.velocity * s.velocity, Stop(leg, s).room, Demand(leg, s));
  }

  // A drive that can be held is neither beyond the margin nor on the target with too weak a request.
  lemma HeldHasRoom(leg: Leg, up: bool, s: Sample)
    requires GoodStart(leg, up, s) && Moving(up, s)
    ensures Stop(leg, s).Within? && 0 < Stop(leg, s).room
  {
    hide Stop;
    StopAhead(leg, up, s);
    SquarePositive(s.velocity);
    var ahead, margin := Ahead(leg, up, s), Abs(leg.overshootMargin);
    if ahead < 0 && margin + ahead <= 0 {
      NonPositiveProduct(I32_MAX, margin + ahead);
    }
  }

  // ----- one step -----

  // Energy left after a step, in the room left after it.
  lemma EnergyLeft(r: int, room: int, travelled: int, square: int, square': int)
    requires 0 < r && square <= 2 * r * room && 0 <= square'
    requires square' + 2 * r * travelled <= square
    ensures square' <= 2 * r * (room - travelled)
    ensures travelled <= room
    ensures 0 < square' ==> travelled < room
  {
    assert 2 * r * room - 2 * r * travelled == 2 * r * (room - travelled);
    if room <= travelled { MulMono(2 * r, room - travelled, 0); }
    if room < travelled { MulMono(2 * r, room - travelled, -1); }
  }

  lemma SquareNonNegative(x: int)
    ensures 0 <= x * x && (x != 0 ==> 0 < x * x)
  {
    if x != 0 { SquarePositive(x); }
  }

  lemma StandingStays(v': int, travelled: int, r: int)
    requires travelled == 0 && v' * v' + 2 * r * travelled <= 0
    ensures v' == 0
  {
    if v' != 0 { SquarePositive(v'); }
  }

  lemma HeldInRoom(square: nat, r: int, left: nat, ahead: int, requested: int, margin: nat)
    requires 0 <= requested <= r <= I32_MAX && square <= 2 * r * left
    requires left == ahead || (left == ahead + margin && (r == requested || ahead < 0))
    ensures CanBeHeld(square, ahead, requested, margin)
  {
    MulMono(left, 2 * r, 2 * I32_MAX);
    MulMono(margin, 0, 2 * requested);
    if left == ahead + margin && 0 <= ahead {
      assert 2 * r * left == 2 * r * ahead + 2 * r * margin;
      MulMono(ahead, 2 * r, 2 * I32_MAX);
    }
  }

  // If r stops the drive in what is left of a room that ends on the target, or at the margin with r the
  // request or the target behind, the drive is held and the next answer is at most r.
  lemma SufficientStep(leg: Leg, up: bool, s': Sample, r: int, left: int)
    requires ValidLeg(leg, up) && leg.requested <= r <= I32_MAX && 0 <= Toward(up, s'.velocity)
    requires 0 <= left && s'.velocity * s'.velocity <= 2 * r * left && (s'.velocity != 0 ==> 0 < left)
    requires
      var ahead, margin := Ahead(leg, up, s'), Abs(leg.overshootMargin);
      || left == ahead
      || (left == ahead + margin && (r == leg.requested || ahead < 0))
    ensures Held(leg, up, s')
    ensures Moving(up, s') ==> Demand(leg, s') <= r
  {
    hide Stop, Demand, CanBeHeld;
    SquareNonNegative(s'.velocity);
    HeldInRoom(s'.velocity * s'.velocity, r, left, Ahead(leg, up, s'), leg.requested, Abs(leg.overshootMargin));
    if Moving(up, s') {
      HeldHasRoom(leg, up, s');
      LeftIsRoom(leg, up, s', r, left);
      MulMono(2 * r, left, Stop(leg, s').room);
      AnswerWithin(leg, up, s', r);
    }
  }

  lemma LeftIsRoom(leg: Leg, up: bool, s: Sample, r: int, left: int)
    requires ValidLeg(leg, up) && leg.requested <= r && Moving(up, s)
    requires 0 < left && s.velocity * s.velocity <= 2 * r * left
    requires
      var ahead, margin := Ahead(leg, up, s), Abs(leg.overshootMargin);
      || left == ahead
      || (left == ahead + margin && (r == leg.requested || ahead < 0))
    ensures Stop(leg, s).Within? && left <= Stop(leg, s).room
  {
    hide Stop;
    StopAhead(leg, up, s);
    SquarePositive(s.velocity);
  }

  // i32::MAX does not stop the drive before the target, but leaves what the request then stops.
  lemma SaturatedStep(leg: Leg, up: bool, s: Sample, s': Sample)
    requires GoodStart(leg, up, s) && Moving(up, s) && 0 < Ahead(leg, up, s)
    requires Demand(leg, s) == I32_MAX && EnergyStep(leg, up, s, s')
    ensures Held(leg, up, s')
    ensures Moving(up, s') ==> Demand(leg, s') <= I32_MAX
  {
    hide Stop, Demand;
    var ahead, margin := Ahead(leg, up, s'), Abs(leg.overshootMargin);
    assert Toward(up, s'.position - s.position) == Ahead(leg, up, s) - ahead;
    SquareNonNegative(s'.velocity);
    MulMono(margin, 2 * leg.requested, 2 * I32_MAX);
    assert s'.velocity * s'.velocity <= 2 * I32_MAX * ahead + 2 * leg.requested * margin;
    if Moving(up, s') {
      HeldHasRoom(leg, up, s');
      AnswerWithin(leg, up, s', I32_MAX);
    }
  }

  /** One tick that obeys the demand keeps the drive held, and the demand does not rise while it moves. */
  lemma HeldStep(leg: Leg, up: bool, s: Sample, s': Sample)
    requires GoodStart(leg, up, s) && EnergyStep(leg, up, s, s')
    ensures Held(leg, up, s')
    ensures Moving(up, s') ==> Moving(up, s) && Demand(leg, s') <= Demand(leg, s)
  {
    hide Stop, Demand;
    var r, ahead, margin := Demand(leg, s), Ahead(leg, up, s), Abs(leg.overshootMargin);
    var travelled := Toward(up, s'.position - s.position);
    assert Ahead(leg, up, s') == ahead - travelled;
    if s.velocity == 0 {
      StandingStays(s'.velocity, travelled, r);
    } else {
      HeldHasRoom(leg, up, s);
      StopAhead(leg, up, s);
      AnswerWithin(leg, up, s, leg.requested);
      var room := Stop(leg, s).room;
      SquareNonNegative(s'.velocity);
      if s.velocity * s.velocity <= 2 * I32_MAX * room {
        EnergyLeft(r, room, travelled, s.velocity * s.velocity, s'.velocity * s'.velocity);
        SufficientStep(leg, up, s', r, room - travelled);
      } else {
        SaturatedStep(leg, up, s, s');
      }
    }
  }

  // ----- runs -----

  /**
    In every run from a good start the drive stays within target + margin, never reaches the
    recovery branch nor the zero-budget escape while it moves, and the demanded deceleration never
    rises while it moves.
   */
  lemma {:induction false} NeverOvershoots(leg: Leg, up: bool, run: seq<Sample>, i: nat, j: nat)
    requires IsRun(leg, up, run) && GoodStart(leg, up, run[0])
    requires i <= j < |run|
    ensures Toward(up, run[j].position - leg.target) <= Abs(leg.overshootMargin)
    ensures Moving(up, run[j]) ==> Stop(leg, run[j]).Within? && 0 < Stop(leg, run[j]).room
    ensures Moving(up, run[j]) ==> Moving(up, run[i]) && Demand(leg, run[j]) <= Demand(leg, run[i])
    ensures GoodStart(leg, up, run[j])
    decreases j
  {
    hide Demand, Stop, EnergyStep;
    if j > 0 {
      NeverOvershoots(leg, up, run, Min(i, j - 1), j - 1);
      HeldStep(leg, up, run[j - 1], run[j]);
    }
    if Moving(up, run[j]) { HeldHasRoom(leg, up, run[j]); }
  }

  // ----- answers that take force later -----

  // Decelerations on their way to the drive, the oldest first, none weaker than the answer to the sample.
  predicate Suffices(queue: seq<int>, leg: Leg, up: bool, s: Sample) {
    Moving(up, s) ==> forall i | 0 <= i < |queue| :: Demand(leg, s) <= queue[i]
  }

  // The answer to a sample takes force |queue| steps after it; until then the queue is in force.
  predicate IsDelayedRun(leg: Leg, up: bool, queue: seq<int>, run: seq<Sample>)
    decreases |run|
  {
    |run| > 1 ==>
      var queue' := queue + [Demand(leg, run[0])];
      Obeys(queue'[0], up, run[0], run[1]) && IsDelayedRun(leg, up, queue'[1..], run[1..])
  }

  lemma StrongerObeys(deceleration: int, stronger: int, up: bool, s: Sample, s': Sample)
    requires Moving(up, s) ==> deceleration <= stronger
    requires Obeys(stronger, up, s, s')
    ensures Obeys(deceleration, up, s, s')
  {
    var travelled := Toward(up, s'.position - s.position);
    if s.velocity != 0 { MulMono(travelled, 2 * deceleration, 2 * stronger); }
  }

  /** Since the demand never rises, an answer that is still in force is no weaker than the newest one. */
  lemma DelayedStep(leg: Leg, up: bool, queue: seq<int>, s: Sample, s': Sample)
    requires GoodStart(leg, up, s) && Suffices(queue, leg, up, s)
    requires Obeys((queue + [Demand(leg, s)])[0], up, s, s')
    ensures EnergyStep(leg, up, s, s') && GoodStart(leg, up, s')
    ensures Suffices((queue + [Demand(leg, s)])[1..], leg, up, s')
  {
    hide Demand, Held, Moving;
    StrongerObeys(Demand(leg, s), (queue + [Demand(leg, s)])[0], up, s, s');
    HeldStep(leg, up, s, s');
  }

  lemma PrependRun(leg: Leg, up: bool, s: Sample, run: seq<Sample>)
    requires IsRun(leg, up, run) && EnergyStep(leg, up, s, run[0])
    ensures IsRun(leg, up, [s] + run)
  {
    hide EnergyStep;
    var all := [s] + run;
    forall i | 0 < i < |all| ensures EnergyStep(leg, up, all[i - 1], all[i]) {
      if i > 1 { assert all[i - 1] == run[i - 2] && all[i] == run[i - 1]; }
    }
  }

  lemma {:induction false} DelayIsHarmless(leg: Leg, up: bool, queue: seq<int>, run: seq<Sample>)
    requires run != [] && GoodStart(leg, up, run[0])
    requires Suffices(queue, leg, up, run[0]) && IsDelayedRun(leg, up, queue, run)
    ensures IsRun(leg, up, run)
    decreases |run|
  {
    hide Demand, GoodStart, Suffices, Obeys, EnergyStep;
    if |run| > 1 {
      DelayedStep(leg, up, queue, run[0], run[1]);
      DelayIsHarmless(leg, up, (queue + [Demand(leg, run[0])])[1..], run[1..]);
      PrependRun(leg, up, run[0], run[1..]);
      assert [run[0]] + run[1..] == run;
    }
  }

  /**
    The bound holds as well when each answer takes force a fixed number of samples later, provided that
    what is in force at the start is no weaker than the first answer.
   */
  lemma DelayedNeverOvershoots(leg: Leg, up: bool, queue: seq<int>, run: seq<Sample>, j: nat)
    requires j < |run| && GoodStart(leg, up, run[0])
    requires Suffices(queue, leg, up, run[0]) && IsDelayedRun(leg, up, queue, run)
    ensures IsRun(leg, up, run)
    ensures Toward(up, run[j].position - leg.target) <= Abs(leg.overshootMargin)
    ensures Moving(up, run[j]) ==> Stop(leg, run[j]).Within? && 0 < Stop(leg, run[j]).room
  {
    hide Demand, Stop, GoodStart, Suffices, IsDelayedRun, IsRun;
    DelayIsHarmless(leg, up, queue, run);
    NeverOvershoots(leg, up, run, j, j);
  }
}

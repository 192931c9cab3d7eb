/**
  The bound of ClosedLoop is sharp: exactly which starts can pass the margin, for a drive that obeys every
  demand and whose velocities are integers.
 */
module SharpBound {
  import opened Base
  import opened Kinematics
  import opened ClampTheorems
  import opened ClosedLoop

  // ----- integer squares -----

  function Root(n: nat): (r: nat)
    ensures r * r <= n < (r + 1) * (r + 1)
  {
    if n == 0 then 0
    else
      var r := Root(n - 1);
      if (r + 1) * (r + 1) <= n then r + 1 else r
  }

  // The largest square up to n: what a velocity can keep of an energy.
  function Kept(n: nat): (k: nat)
    ensures k <= n
  {
    Root(n) * Root(n)
  }

  lemma KeptIsLargest(w: int, n: nat)
    requires w * w <= n
    ensures w * w <= Kept(n) && (0 < n ==> 0 < Kept(n))
  {
    var r := Root(n);
    if r < Abs(w) {
      SquareMono(r + 1, w);
    } else {
      SquareMono(w, r);
    }
    if r > 0 { SquarePositive(r); }
  }

  lemma KeptMono(m: nat, n: nat)
    requires m <= n
    ensures Kept(m) <= Kept(n)
  {
    KeptIsLargest(Root(m), n);
  }

  // ----- the starts that can pass the margin -----

  // The deceleration of the recovery branch at the margin.
  function AtMargin(leg: Leg): int {
    Min(leg.hardMin, I32_MAX)
  }

  // Beyond the target, with some of the margin left.
  predicate PassesFromBeyond(square: nat, room: nat, atMargin: nat) {
    && 2 * I32_MAX * room < square
    && (2 * I32_MAX * (room + 1) <= square || 2 * atMargin <= Kept(square - 2 * I32_MAX * room))
  }

  // Exactly on the target, where the request is handed back.
  predicate PassesFromTarget(square: nat, requested: nat, margin: nat, atMargin: nat) {
    && 2 * requested * margin < square
    && (|| 2 * requested * (margin + 1) <= square
        || (0 < margin && 2 * atMargin <= Kept(square - 2 * requested * margin)))
  }

  // Before the target.
  predicate PassesFromBefore(square: nat, ahead: nat, requested: nat, margin: nat, atMargin: nat) {
    && 2 * requested * (ahead + margin) < square && 2 * I32_MAX * ahead < square
    && (|| 2 * I32_MAX * (ahead + margin + 1) <= square
        || (0 < margin && 2 * I32_MAX * (ahead + margin) < square
            && 2 * atMargin <= Kept(square - 2 * I32_MAX * (ahead + margin)))
        || PassesFromTarget(Kept(square - 2 * I32_MAX * ahead), requested, margin, atMargin))
  }

  // A moving drive that has not passed the margin.
  predicate PassesFrom(square: nat, ahead: int, requested: nat, margin: nat, atMargin: nat)
    requires 0 <= margin + ahead
  {
    if 0 < ahead then PassesFromBefore(square, ahead, requested, margin, atMargin)
    else if ahead == 0 then PassesFromTarget(square, requested, margin, atMargin)
    else if 0 < margin + ahead then PassesFromBeyond(square, margin + ahead, atMargin)
    else 2 * atMargin <= square
  }

  function Square(x: int): nat {
    SquareNonNegative(x);
    x * x
  }

  // Whether some run of a drive that obeys every demand passes the margin, in terms of the start alone.
  predicate CanPass(leg: Leg, up: bool, s: Sample)
    requires 0 <= leg.requested && 0 <= leg.hardMin
  {
    var ahead, margin := Ahead(leg, up, s), Abs(leg.overshootMargin);
    || margin + ahead < 0
    || (Moving(up, s) && PassesFrom(Square(s.velocity), ahead, leg.requested, margin, AtMargin(leg)))
  }

  ghost predicate SomeRunPasses(leg: Leg, up: bool, s: Sample) {
    exists run: seq<Sample>, j: nat ::
      && IsRun(leg, up, run) && run[0] == s && j < |run|
      && Abs(leg.overshootMargin) < Toward(up, run[j].position - leg.target)
  }

  // What the program configures.
  predicate ConfiguredLeg(leg: Leg, up: bool) {
    ValidLeg(leg, up) && 0 <= leg.hardMin <= leg.hardMax
  }

  // ----- the answers outside what can be held -----

  lemma AnswerSaturates(leg: Leg, up: bool, s: Sample)
    requires ConfiguredLeg(leg, up) && Moving(up, s)
    requires
      var square, ahead, margin := s.velocity * s.velocity, Ahead(leg, up, s), Abs(leg.overshootMargin);
      || (0 < ahead && 2 * leg.requested * (ahead + margin) < square && 2 * I32_MAX * ahead < square)
      || (ahead < 0 < margin + ahead && 2 * I32_MAX * (margin + ahead) < square)
    ensures Demand(leg, s) == I32_MAX
  {
    hide Demand, Stop;
    StopAhead(leg, up, s);
    AnswerWithin(leg, up, s, 0);
  }

  lemma AnswerOnTarget(leg: Leg, up: bool, s: Sample)
    requires ConfiguredLeg(leg, up) && Moving(up, s) && Ahead(leg, up, s) == 0
    ensures Demand(leg, s) == leg.requested
  {
    SquarePositive(s.velocity);
    NonNegativeProduct(leg.requested, Abs(leg.overshootMargin));
  }

  lemma NonNegativeProduct(x: int, y: int)
    requires 0 <= x && 0 <= y
    ensures 0 <= x * y
  {
  }

  lemma RecoveryAtMargin(margin: nat, hardMin: int, hardMax: int)
    ensures RecoveryDeceleration(0, margin, hardMin, hardMax) == Min(hardMin, I32_MAX)
  {
    DivExact(0, Max(margin, 1));
  }

  lemma AnswerAtMargin(leg: Leg, up: bool, s: Sample)
    requires ConfiguredLeg(leg, up) && Moving(up, s)
    requires Ahead(leg, up, s) < 0 && Abs(leg.overshootMargin) + Ahead(leg, up, s) == 0
    ensures Demand(leg, s) == AtMargin(leg)
  {
    hide StoppingRoom, RecoveryDeceleration;
    StopAhead(leg, up, s);
    RecoveryAtMargin(Abs(leg.overshootMargin), leg.hardMin, leg.hardMax);
  }

  // ----- what can be held cannot pass -----

  lemma HeldCannotPass(leg: Leg, up: bool, s: Sample)
    requires ConfiguredLeg(leg, up) && GoodStart(leg, up, s)
    ensures !CanPass(leg, up, s)
  {
    hide Kept;
    var ahead, margin, requested := Ahead(leg, up, s), Abs(leg.overshootMargin), leg.requested;
    MulMono(margin, 2 * requested, 2 * I32_MAX);
    if Moving(up, s) {
      SquarePositive(s.velocity);
      assert 2 * requested * (margin + 1) == 2 * requested * margin + 2 * requested;
    }
  }

  // ----- a step from a start that cannot pass -----

  lemma BeyondKeeps(square: nat, square': nat, room: nat, room': nat, h: nat)
    requires room' <= room && square' + 2 * I32_MAX * (room - room') <= square
    requires PassesFromBeyond(square', room', h)
    ensures PassesFromBeyond(square, room, h)
  {
    KeptMono(square' - 2 * I32_MAX * room', square - 2 * I32_MAX * room);
  }

  lemma TargetKeeps(square: nat, square': nat, requested: nat, margin: nat, h: nat)
    requires square' <= square && PassesFromTarget(square', requested, margin, h)
    ensures PassesFromTarget(square, requested, margin, h)
  {
    KeptMono(square' - 2 * requested * margin, square - 2 * requested * margin);
  }

  // From the target into the margin.
  lemma TargetToBeyond(square: nat, square': nat, requested: nat, margin: nat, room: nat, h: nat)
    requires 0 < room < margin && requested <= I32_MAX
    requires square' + 2 * requested * (margin - room) <= square && PassesFromBeyond(square', room, h)
    ensures PassesFromTarget(square, requested, margin, h)
  {
    hide Kept;
    MulMono(room, 2 * requested, 2 * I32_MAX);
    MulMono(room + 1, 2 * requested, 2 * I32_MAX);
    Distribute(requested, margin - room, room);
    Distribute(requested, margin - room, room + 1);
    KeptMono(square' - 2 * I32_MAX * room, square - 2 * requested * margin);
  }

  lemma Distribute(k: int, x: int, y: int)
    ensures 2 * k * (x + y) == 2 * k * x + 2 * k * y
  {
  }

  lemma ShiftedBound(square: nat, square': nat, x: nat, x': nat, k: int)
    requires x' <= x && k <= I32_MAX && square' + 2 * I32_MAX * (x - x') <= square
    ensures 2 * k * x' < square' ==> 2 * k * x < square
    ensures 2 * k * x' <= square' ==> 2 * k * x <= square
  {
    MulMono(x - x', 2 * k, 2 * I32_MAX);
    Distribute(k, x', x - x');
  }

  lemma ShiftedKept(square: nat, square': nat, x: nat, x': nat)
    requires x' <= x && square' + 2 * I32_MAX * (x - x') <= square && 2 * I32_MAX * x' <= square'
    ensures 2 * I32_MAX * x <= square
    ensures Kept(square' - 2 * I32_MAX * x') <= Kept(square - 2 * I32_MAX * x)
  {
    hide Kept;
    Distribute(I32_MAX, x', x - x');
    KeptMono(square' - 2 * I32_MAX * x', square - 2 * I32_MAX * x);
  }

  lemma BeforeKeeps(square: nat, square': nat, ahead: nat, ahead': nat, requested: nat, margin: nat, h: nat)
    requires ahead' <= ahead && requested <= I32_MAX
    requires square' + 2 * I32_MAX * (ahead - ahead') <= square
    requires PassesFromBefore(square', ahead', requested, margin, h)
    ensures PassesFromBefore(square, ahead, requested, margin, h)
  {
    hide Kept, PassesFromTarget;
    ShiftedBound(square, square', ahead + margin, ahead' + margin, requested);
    ShiftedKept(square, square', ahead, ahead');
    ShiftedBound(square, square', ahead, ahead', I32_MAX);
    if 2 * I32_MAX * (ahead' + margin + 1) <= square' {
      ShiftedBound(square, square', ahead + margin + 1, ahead' + margin + 1, I32_MAX);
    } else if PassesFromTarget(Kept(square' - 2 * I32_MAX * ahead'), requested, margin, h) {
      TargetKeeps(Kept(square - 2 * I32_MAX * ahead), Kept(square' - 2 * I32_MAX * ahead'), requested, margin, h);
    } else {
      ShiftedBound(square, square', ahead + margin, ahead' + margin, I32_MAX);
      ShiftedKept(square, square', ahead + margin, ahead' + margin);
    }
  }

  // A step ends beyond the margin, or at a place and with a speed w from which the margin can be passed.
  predicate StepEndsBadly(w: nat, ahead': int, requested: nat, margin: nat, h: nat) {
    margin + ahead' < 0 || (0 < w && PassesFrom(Square(w), ahead', requested, margin, h))
  }

  lemma StepFromMargin(square: nat, w: nat, ahead: int, ahead': int, requested: nat, margin: nat, h: nat)
    requires ahead' <= ahead < 0 && margin + ahead == 0
    requires Square(w) + 2 * h * (ahead - ahead') <= square && StepEndsBadly(w, ahead', requested, margin, h)
    ensures PassesFrom(square, ahead, requested, margin, h)
  {
    MulMono(2 * h, if ahead' == ahead then 0 else 1, ahead - ahead');
  }

  lemma StepFromBeyond(square: nat, w: nat, ahead: int, ahead': int, requested: nat, margin: nat, h: nat)
    requires ahead' <= ahead < 0 < margin + ahead && 2 * I32_MAX * (margin + ahead) < square
    requires Square(w) + 2 * I32_MAX * (ahead - ahead') <= square && StepEndsBadly(w, ahead', requested, margin, h)
    ensures PassesFrom(square, ahead, requested, margin, h)
  {
    hide Kept, Square;
    if 0 < margin + ahead' {
      hide PassesFromBeyond;
      BeyondKeeps(square, Square(w), margin + ahead, margin + ahead', h);
    } else if margin + ahead' == 0 {
      KeptSquare(w, square - 2 * I32_MAX * (margin + ahead));
    }
  }

  lemma KeptSquare(w: nat, n: nat)
    requires Square(w) <= n
    ensures Square(w) <= Kept(n)
  {
    KeptIsLargest(w, n);
  }

  lemma StepFromTarget(square: nat, w: nat, ahead': int, requested: nat, margin: nat, h: nat)
    requires ahead' <= 0 && 2 * requested * margin < square && requested <= I32_MAX
    requires Square(w) + 2 * requested * -ahead' <= square && StepEndsBadly(w, ahead', requested, margin, h)
    ensures PassesFromTarget(square, requested, margin, h)
  {
    hide Kept, Square;
    if margin + ahead' < 0 {
      MulMono(2 * requested, margin + 1, -ahead');
    } else if ahead' == 0 {
      hide PassesFromTarget;
      TargetKeeps(square, Square(w), requested, margin, h);
    } else if margin + ahead' == 0 {
      KeptSquare(w, square - 2 * requested * margin);
    } else {
      hide PassesFromTarget, PassesFromBeyond;
      TargetToBeyond(square, Square(w), requested, margin, margin + ahead', h);
    }
  }

  lemma BeforeToBeyond(
    square: nat, square': nat, ahead: nat, requested: nat, margin: nat, room': nat, h: nat
  )
    requires 0 < ahead && 0 < room' < margin && requested <= I32_MAX
    requires square' + 2 * I32_MAX * (ahead + margin - room') <= square && PassesFromBeyond(square', room', h)
    ensures PassesFromBefore(square, ahead, requested, margin, h)
  {
    hide Kept, PassesFromTarget;
    var travel := ahead + margin;
    MulMono(travel, 2 * requested, 2 * I32_MAX);
    assert 2 * I32_MAX * (travel - room') == 2 * I32_MAX * travel - 2 * I32_MAX * room';
    KeptMono(square' - 2 * I32_MAX * room', square - 2 * I32_MAX * travel);
  }

  lemma BeforeToMargin(square: nat, w: nat, ahead: nat, requested: nat, margin: nat, h: nat)
    requires 0 < ahead && 0 < margin && 0 < Square(w) && requested <= I32_MAX
    requires Square(w) + 2 * I32_MAX * (ahead + margin) <= square && 2 * h <= Square(w)
    ensures PassesFromBefore(square, ahead, requested, margin, h)
  {
    hide Kept, Square, PassesFromTarget;
    MulMono(ahead + margin, 2 * requested, 2 * I32_MAX);
    KeptSquare(w, square - 2 * I32_MAX * (ahead + margin));
  }

  lemma BeforeToTarget(square: nat, w: nat, ahead: nat, requested: nat, margin: nat, h: nat)
    requires 0 < ahead && requested <= I32_MAX && 2 * I32_MAX * ahead < square
    requires 2 * requested * (ahead + margin) < square
    requires Square(w) + 2 * I32_MAX * ahead <= square && PassesFromTarget(Square(w), requested, margin, h)
    ensures PassesFromBefore(square, ahead, requested, margin, h)
  {
    hide Kept, Square, PassesFromTarget;
    KeptSquare(w, square - 2 * I32_MAX * ahead);
    TargetKeeps(Kept(square - 2 * I32_MAX * ahead), Square(w), requested, margin, h);
  }

  lemma BeforeToPast(square: nat, ahead: nat, requested: nat, margin: nat, h: nat)
    requires requested <= I32_MAX && 0 < square && 2 * I32_MAX * (ahead + margin + 1) <= square
    ensures PassesFromBefore(square, ahead, requested, margin, h)
  {
    MulMono(ahead + margin, 2 * requested, 2 * I32_MAX);
  }

  lemma StepFromBefore(square: nat, w: nat, ahead: nat, ahead': int, requested: nat, margin: nat, h: nat)
    requires 0 < ahead && ahead' <= ahead && requested <= I32_MAX
    requires 2 * requested * (ahead + margin) < square && 2 * I32_MAX * ahead < square
    requires Square(w) + 2 * I32_MAX * (ahead - ahead') <= square && StepEndsBadly(w, ahead', requested, margin, h)
    ensures PassesFromBefore(square, ahead, requested, margin, h)
  {
    hide Kept, PassesFromTarget, PassesFromBeyond, PassesFromBefore;
    if margin + ahead' < 0 {
      BeforeToPast(square, ahead, requested, margin, h);
    } else if 0 < ahead' {
      BeforeKeeps(square, Square(w), ahead, ahead', requested, margin, h);
    } else if ahead' == 0 {
      BeforeToTarget(square, w, ahead, requested, margin, h);
    } else if 0 < margin + ahead' {
      BeforeToBeyond(square, Square(w), ahead, requested, margin, margin + ahead', h);
    } else {
      SquarePositive(w);
      BeforeToMargin(square, w, ahead, requested, margin, h);
    }
  }

  // The step that the drive makes, in numbers.
  lemma StepInNumbers(leg: Leg, up: bool, s: Sample, s': Sample)
    requires ConfiguredLeg(leg, up) && EnergyStep(leg, up, s, s') && CanPass(leg, up, s')
    ensures
      var ahead, ahead' := Ahead(leg, up, s), Ahead(leg, up, s');
      && 0 <= Toward(up, s'.velocity) && ahead' <= ahead
      && Square(Toward(up, s'.velocity)) + 2 * Demand(leg, s) * (ahead - ahead') <= Square(s.velocity)
      && StepEndsBadly(Toward(up, s'.velocity), ahead', leg.requested, Abs(leg.overshootMargin), AtMargin(leg))
  {
    hide Demand, PassesFrom, AtMargin;
    assert Square(Toward(up, s'.velocity)) == Square(s'.velocity);
  }

  lemma CannotPassStep(leg: Leg, up: bool, s: Sample, s': Sample)
    requires ConfiguredLeg(leg, up) && EnergyStep(leg, up, s, s') && !CanPass(leg, up, s)
    ensures !CanPass(leg, up, s')
  {
    hide Demand, Kept, AtMargin, PassesFromTarget, PassesFromBeyond, PassesFromBefore, EnergyStep, StepEndsBadly;
    if GoodStart(leg, up, s) {
      HeldStep(leg, up, s, s');
      HeldCannotPass(leg, up, s');
    } else if CanPass(leg, up, s') {
      UnheldStep(leg, up, s, s');
    }
  }

  // What the clamp answers to a drive that it cannot hold.
  lemma UnheldAnswer(leg: Leg, up: bool, s: Sample)
    requires ConfiguredLeg(leg, up) && !GoodStart(leg, up, s) && 0 <= Abs(leg.overshootMargin) + Ahead(leg, up, s)
    ensures Moving(up, s)
    ensures
      var square, ahead, margin := Square(s.velocity), Ahead(leg, up, s), Abs(leg.overshootMargin);
      if 0 < ahead then
        && Demand(leg, s) == I32_MAX
        && 2 * leg.requested * (ahead + margin) < square && 2 * I32_MAX * ahead < square
      else if ahead == 0 then Demand(leg, s) == leg.requested && 2 * leg.requested * margin < square
      else if 0 < margin + ahead then Demand(leg, s) == I32_MAX && 2 * I32_MAX * (margin + ahead) < square
      else Demand(leg, s) == AtMargin(leg)
  {
    hide Demand, AtMargin;
    var ahead, margin := Ahead(leg, up, s), Abs(leg.overshootMargin);
    if 0 < ahead {
      MulMono(ahead, 2 * leg.requested, 2 * I32_MAX);
      NonNegativeProduct(leg.requested, margin);
      Distribute(leg.requested, ahead, margin);
      AnswerSaturates(leg, up, s);
    } else if ahead == 0 {
      AnswerOnTarget(leg, up, s);
    } else if 0 < margin + ahead {
      AnswerSaturates(leg, up, s);
    } else {
      AnswerAtMargin(leg, up, s);
    }
  }

  lemma UnheldStep(leg: Leg, up: bool, s: Sample, s': Sample)
    requires ConfiguredLeg(leg, up) && EnergyStep(leg, up, s, s') && CanPass(leg, up, s')
    requires !GoodStart(leg, up, s) && 0 <= Abs(leg.overshootMargin) + Ahead(leg, up, s)
    ensures CanPass(leg, up, s)
  {
    UnheldAnswer(leg, up, s);
    StepInNumbers(leg, up, s, s');
    hide Demand, Kept, AtMargin, EnergyStep, StepEndsBadly, GoodStart, Ahead, Square;
    hide PassesFromTarget, PassesFromBeyond, PassesFromBefore;
    var ahead, ahead', margin := Ahead(leg, up, s), Ahead(leg, up, s'), Abs(leg.overshootMargin);
    var square, w: nat, h := Square(s.velocity), Toward(up, s'.velocity), AtMargin(leg);
    if 0 < ahead {
      StepFromBefore(square, w, ahead, ahead', leg.requested, margin, h);
    } else if ahead == 0 {
      StepFromTarget(square, w, ahead', leg.requested, margin, h);
    } else if 0 < margin + ahead {
      StepFromBeyond(square, w, ahead, ahead', leg.requested, margin, h);
    } else {
      StepFromMargin(square, w, ahead, ahead', leg.requested, margin, h);
    }
  }

  lemma {:induction false} RunCannotPass(leg: Leg, up: bool, run: seq<Sample>, j: nat)
    requires ConfiguredLeg(leg, up) && IsRun(leg, up, run) && j < |run| && !CanPass(leg, up, run[0])
    ensures !CanPass(leg, up, run[j])
    decreases j
  {
    hide CanPass, EnergyStep;
    if j > 0 {
      RunCannotPass(leg, up, run, j - 1);
      CannotPassStep(leg, up, run[j - 1], run[j]);
    }
  }

  // ----- a run from a start that can pass -----

  function SampleAhead(leg: Leg, up: bool, ahead: int, speed: nat): (s: Sample)
    ensures Ahead(leg, up, s) == ahead && Toward(up, s.velocity) == speed
    ensures s.velocity * s.velocity == speed * speed
  {
    Sample(leg.target - Toward(up, ahead), Toward(up, speed))
  }

  lemma StepPasses(leg: Leg, up: bool, s: Sample, s': Sample)
    requires EnergyStep(leg, up, s, s') && SomeRunPasses(leg, up, s')
    ensures SomeRunPasses(leg, up, s)
  {
    hide EnergyStep;
    var rest: seq<Sample>, j: nat :|
      && IsRun(leg, up, rest) && rest[0] == s' && j < |rest|
      && Abs(leg.overshootMargin) < Toward(up, rest[j].position - leg.target);
    PrependRun(leg, up, s, rest);
    var run := [s] + rest;
    assert run[0] == s && run[j + 1] == rest[j];
  }

  lemma BeyondPasses(leg: Leg, up: bool, s: Sample)
    requires Abs(leg.overshootMargin) + Ahead(leg, up, s) < 0
    ensures SomeRunPasses(leg, up, s)
  {
    var run := [s];
    assert IsRun(leg, up, run) && run[0] == s;
    assert Abs(leg.overshootMargin) < Toward(up, run[0].position - leg.target);
  }

  // One step beyond the margin, if the demand leaves the energy for it.
  lemma OneStepPasses(leg: Leg, up: bool, s: Sample)
    requires Moving(up, s) && 0 <= Abs(leg.overshootMargin) + Ahead(leg, up, s)
    requires 2 * Demand(leg, s) * (Abs(leg.overshootMargin) + Ahead(leg, up, s) + 1) <= s.velocity * s.velocity
    ensures SomeRunPasses(leg, up, s)
  {
    hide Demand;
    var margin: int := Abs(leg.overshootMargin);
    var s' := SampleAhead(leg, up, -(margin + 1), 0);
    BeyondPasses(leg, up, s');
    StepPasses(leg, up, s, s');
  }

  // A step to another place, keeping as much speed as the demand allows.
  lemma KeepingStep(leg: Leg, up: bool, s: Sample, ahead': int) returns (s': Sample)
    requires Moving(up, s) && ahead' <= Ahead(leg, up, s)
    requires 2 * Demand(leg, s) * (Ahead(leg, up, s) - ahead') < s.velocity * s.velocity
    ensures EnergyStep(leg, up, s, s') && Moving(up, s') && Ahead(leg, up, s') == ahead'
    ensures
      var left := s.velocity * s.velocity - 2 * Demand(leg, s) * (Ahead(leg, up, s) - ahead');
      s'.velocity * s'.velocity == Kept(left)
  {
    hide Demand;
    var left: nat := s.velocity * s.velocity - 2 * Demand(leg, s) * (Ahead(leg, up, s) - ahead');
    KeptIsLargest(0, left);
    s' := SampleAhead(leg, up, ahead', Root(left));
  }

  lemma MarginPasses(leg: Leg, up: bool, s: Sample)
    requires ConfiguredLeg(leg, up) && Moving(up, s)
    requires Ahead(leg, up, s) < 0 && Abs(leg.overshootMargin) + Ahead(leg, up, s) == 0
    requires 2 * AtMargin(leg) <= s.velocity * s.velocity
    ensures SomeRunPasses(leg, up, s)
  {
    hide Demand;
    AnswerAtMargin(leg, up, s);
    OneStepPasses(leg, up, s);
  }

  lemma PassFromBeyond(leg: Leg, up: bool, s: Sample)
    requires ConfiguredLeg(leg, up) && Moving(up, s)
    requires Ahead(leg, up, s) < 0 < Abs(leg.overshootMargin) + Ahead(leg, up, s)
    requires CanPass(leg, up, s)
    ensures SomeRunPasses(leg, up, s)
  {
    hide Demand, Kept, AtMargin, SomeRunPasses;
    var margin: int := Abs(leg.overshootMargin);
    AnswerSaturates(leg, up, s);
    if 2 * I32_MAX * (margin + Ahead(leg, up, s) + 1) <= s.velocity * s.velocity {
      OneStepPasses(leg, up, s);
    } else {
      var s' := KeepingStep(leg, up, s, -margin);
      MarginPasses(leg, up, s');
      StepPasses(leg, up, s, s');
    }
  }

  lemma PassFromTarget(leg: Leg, up: bool, s: Sample)
    requires ConfiguredLeg(leg, up) && Moving(up, s) && Ahead(leg, up, s) == 0
    requires CanPass(leg, up, s)
    ensures SomeRunPasses(leg, up, s)
  {
    hide Demand, Kept, AtMargin, SomeRunPasses;
    var margin: int := Abs(leg.overshootMargin);
    AnswerOnTarget(leg, up, s);
    if 2 * leg.requested * (margin + 1) <= s.velocity * s.velocity {
      OneStepPasses(leg, up, s);
    } else {
      var s' := KeepingStep(leg, up, s, -margin);
      MarginPasses(leg, up, s');
      StepPasses(leg, up, s, s');
    }
  }

  lemma PassFromBefore(leg: Leg, up: bool, s: Sample)
    requires ConfiguredLeg(leg, up) && Moving(up, s) && 0 < Ahead(leg, up, s)
    requires CanPass(leg, up, s)
    ensures SomeRunPasses(leg, up, s)
  {
    hide Demand, Kept, AtMargin, SomeRunPasses, PassesFromTarget;
    var margin: int := Abs(leg.overshootMargin);
    var square, ahead := s.velocity * s.velocity, Ahead(leg, up, s);
    AnswerSaturates(leg, up, s);
    if 2 * I32_MAX * (ahead + margin + 1) <= square {
      OneStepPasses(leg, up, s);
    } else if 0 < margin && 2 * I32_MAX * (ahead + margin) < square
              && 2 * AtMargin(leg) <= Kept(square - 2 * I32_MAX * (ahead + margin)) {
      var s' := KeepingStep(leg, up, s, -margin);
      MarginPasses(leg, up, s');
      StepPasses(leg, up, s, s');
    } else {
      var s' := KeepingStep(leg, up, s, 0);
      PassFromTarget(leg, up, s');
      StepPasses(leg, up, s, s');
    }
  }

  // ----- the theorem -----

  /**
    Some run that obeys every demand passes the margin if and only if the start satisfies CanPass. This is
    for every configured leg, every position and every velocity.
   */
  lemma PassesExactlyWhen(leg: Leg, up: bool, s: Sample)
    requires ConfiguredLeg(leg, up)
    ensures SomeRunPasses(leg, up, s) <==> CanPass(leg, up, s)
  {
    if CanPass(leg, up, s) {
      hide CanPass, SomeRunPasses;
      PassingRun(leg, up, s);
    } else {
      hide Demand, EnergyStep, PassesFromBefore, PassesFromBeyond, PassesFromTarget;
      forall run: seq<Sample>, j: nat | IsRun(leg, up, run) && run[0] == s && j < |run|
        ensures Toward(up, run[j].position - leg.target) <= Abs(leg.overshootMargin)
      {
        RunCannotPass(leg, up, run, j);
      }
    }
  }

  lemma PassingRun(leg: Leg, up: bool, s: Sample)
    requires ConfiguredLeg(leg, up) && CanPass(leg, up, s)
    ensures SomeRunPasses(leg, up, s)
  {
    hide SomeRunPasses, PassesFromBefore, PassesFromBeyond, PassesFromTarget, Demand;
    var ahead, margin: int := Ahead(leg, up, s), Abs(leg.overshootMargin);
    if margin + ahead < 0 {
      BeyondPasses(leg, up, s);
    } else if 0 < ahead {
      PassFromBefore(leg, up, s);
    } else if ahead == 0 {
      PassFromTarget(leg, up, s);
    } else if 0 < margin + ahead {
      PassFromBeyond(leg, up, s);
    } else {
      MarginPasses(leg, up, s);
    }
  }

  /** From exactly on the target, where the clamp's budget is zero and the request is handed back. */
  lemma ZeroBudgetEscapes(leg: Leg, up: bool, s: Sample)
    requires ConfiguredLeg(leg, up) && Moving(up, s) && Ahead(leg, up, s) == 0
    requires 2 * leg.requested * (Abs(leg.overshootMargin) + 1) <= Square(s.velocity)
    ensures SomeRunPasses(leg, up, s)
  {
    hide SomeRunPasses;
    SquarePositive(s.velocity);
    Distribute(leg.requested, Abs(leg.overshootMargin), 1);
    PassesExactlyWhen(leg, up, s);
  }

  /**
    From a saturated answer, whenever i32::MAX leaves a speed w on the target with which the request does
    not stop the drive one unit behind the margin.
   */
  lemma SaturationEscapes(leg: Leg, up: bool, s: Sample, w: nat)
    requires ConfiguredLeg(leg, up) && Moving(up, s) && 0 < Ahead(leg, up, s) && 0 < w
    requires
      var square, ahead, margin := Square(s.velocity), Ahead(leg, up, s), Abs(leg.overshootMargin);
      && 2 * leg.requested * (ahead + margin) < square
      && Square(w) + 2 * I32_MAX * ahead <= square && 2 * leg.requested * (margin + 1) <= Square(w)
    ensures SomeRunPasses(leg, up, s)
  {
    hide SomeRunPasses, Kept;
    var left := Square(s.velocity) - 2 * I32_MAX * Ahead(leg, up, s);
    SquarePositive(w);
    KeptSquare(w, left);
    Distribute(leg.requested, Abs(leg.overshootMargin), 1);
    PassesExactlyWhen(leg, up, s);
  }
}

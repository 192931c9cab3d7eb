/**
  The handheld's manager and the core together: while the handheld holds write access its two
  commands are the active set, and its edits keep the stroke in order.
 */
module HidMirror {
  import opened Base
  import opened Messages
  import opened Core
  import opened Replicas
  import opened HidMessages
  import opened HidUi

  // The core as it processes the messages of one report, one after the other.
  function HandleAll(core: CoreData, messages: seq<ClientMessage>, n: nat): (r: CoreData)
    requires ValidLimits(core.limits) && n <= |messages|
    ensures r.limits == core.limits
  {
    if n == 0 then core
    else
      var before := HandleAll(core, messages, n - 1);
      MessageKeepsLimits(before, Hid, messages[n - 1]);
      HandleMessage(before, Hid, messages[n - 1]).core
  }

  lemma {:induction false} HandleAllAppend(core: CoreData, p: seq<ClientMessage>, q: seq<ClientMessage>, n: nat)
    requires ValidLimits(core.limits) && n <= |q|
    ensures HandleAll(core, p + q, |p| + n) == HandleAll(HandleAll(core, p, |p|), q, n)
  {
    hide HandleMessage;
    if n == 0 {
      HandleAllPrefix(core, p, p + q, |p|);
    } else {
      HandleAllAppend(core, p, q, n - 1);
      assert (p + q)[|p| + n - 1] == q[n - 1];
    }
  }

  lemma {:induction false} HandleAllPrefix(core: CoreData, p: seq<ClientMessage>, q: seq<ClientMessage>, n: nat)
    requires ValidLimits(core.limits) && n <= |p| <= |q| && p == q[..|p|]
    ensures HandleAll(core, p, n) == HandleAll(core, q, n)
  {
    hide HandleMessage;
    if n > 0 {
      HandleAllPrefix(core, p, q, n - 1);
      assert p[n - 1] == q[n - 1];
    }
  }

  // The handheld is the writer and its copy is the active set.
  predicate InStep(core: CoreData, ui: Ui) {
    ValidLimits(core.limits) && IsWriter(core, Hid) && core.active == CommandsOf(ui)
  }

  lemma MessageKeepsStep(core: CoreData, message: ClientMessage)
    requires ValidLimits(core.limits) && IsWriter(core, Hid)
    requires message.UpdateCommand? || message.SetDrivePower? || message.SetMotionState? || message.AcknowledgeError?
      || (message.UpsertCommandSet? && message.name.None? && message.baseVersion.None?)
    ensures IsWriter(HandleMessage(core, Hid, message).core, Hid)
    ensures HandleMessage(core, Hid, message).core.limits == core.limits
    ensures HandleMessage(core, Hid, message).core.active
         == if message.UpsertCommandSet? then message.commands
            else if message.UpdateCommand? && message.update.index < |core.active|
              then Updated(core.active, message.update)
            else core.active
  {
  }

  lemma {:induction false} HandleNext(core: CoreData, messages: seq<ClientMessage>, n: nat)
    requires ValidLimits(core.limits) && n < |messages|
    ensures HandleAll(core, messages, n + 1) == HandleMessage(HandleAll(core, messages, n), Hid, messages[n]).core
  {
    hide HandleMessage;
  }

  lemma TurnKeepsStep(core: CoreData, ui: Ui, encoder: nat, delta: i8)
    requires InStep(core, ui)
    ensures
      var outcome := Turn(ui, encoder, delta, core.limits);
      InStep(HandleAll(core, outcome.messages, |outcome.messages|), outcome.ui)
  {
    var outcome := Turn(ui, encoder, delta, core.limits);
    hide HandleMessage;
    if outcome.messages != [] {
      HandleNext(core, outcome.messages, 0);
      MessageKeepsStep(core, outcome.messages[0]);
      if |outcome.messages| == 2 {
        HandleNext(core, outcome.messages, 1);
        MessageKeepsStep(HandleAll(core, outcome.messages, 1), outcome.messages[1]);
      }
    }
  }

  lemma ReactKeepsStep(core: CoreData, ui: Ui, event: HidInputEvent, driveState: DriveState)
    requires InStep(core, ui)
    ensures
      var outcome := React(ui, event, driveState);
      InStep(HandleAll(core, outcome.messages, |outcome.messages|), outcome.ui)
  {
    var outcome := React(ui, event, driveState);
    hide HandleMessage;
    if outcome.messages != [] {
      HandleNext(core, outcome.messages, 0);
      MessageKeepsStep(core, outcome.messages[0]);
    }
  }

  lemma {:induction false} TurnsKeepStep(core: CoreData, ui: Ui, deltas: seq<i8>, n: nat)
    requires InStep(core, ui) && n <= |deltas|
    ensures
      var outcome := TurnAll(ui, deltas, core.limits, n);
      InStep(HandleAll(core, outcome.messages, |outcome.messages|), outcome.ui)
  {
    hide HandleMessage, Turn;
    if n > 0 {
      TurnsKeepStep(core, ui, deltas, n - 1);
      var before := TurnAll(ui, deltas, core.limits, n - 1);
      var now := Turn(before.ui, n - 1, deltas[n - 1], core.limits);
      TurnKeepsStep(HandleAll(core, before.messages, |before.messages|), before.ui, n - 1, deltas[n - 1]);
      HandleAllAppend(core, before.messages, now.messages, |now.messages|);
    }
  }

  lemma {:induction false} ReactionsKeepStep(
    core: CoreData, ui: Ui, events: seq<HidInputEvent>, driveState: DriveState, n: nat
  )
    requires InStep(core, ui) && n <= |events|
    ensures
      var outcome := ReactAll(ui, events, driveState, n);
      InStep(HandleAll(core, outcome.messages, |outcome.messages|), outcome.ui)
  {
    hide HandleMessage, React;
    if n > 0 {
      ReactionsKeepStep(core, ui, events, driveState, n - 1);
      var before := ReactAll(ui, events, driveState, n - 1);
      var now := React(before.ui, events[n - 1], driveState);
      ReactKeepsStep(HandleAll(core, before.messages, |before.messages|), before.ui, events[n - 1], driveState);
      HandleAllAppend(core, before.messages, now.messages, |now.messages|);
    }
  }

  lemma TakeOverBringsStep(core: CoreData, ui: Ui)
    requires ValidLimits(core.limits)
    ensures
      var outcome := TakeOver(ui);
      InStep(HandleAll(core, outcome.messages, |outcome.messages|), outcome.ui)
  {
    var outcome := TakeOver(ui);
    HandleNext(core, outcome.messages, 0);
    HandleNext(core, outcome.messages, 1);
    MessageKeepsStep(HandleAll(core, outcome.messages, 1), outcome.messages[1]);
  }

  // An input report from the handheld, or any event that does not come from it.
  datatype HidEvent = Report(report: InputReport) | Other(event: Event)

  predicate Plausible(e: HidEvent) {
    e.Other? && e.event.FromController? ==> e.event.id != Hid
  }

  datatype Pair = Pair(core: CoreData, ui: Ui)

  function Advance(p: Pair, e: HidEvent): Pair
    requires ValidLimits(p.core.limits)
  {
    match e
    case Report(report) =>
      var outcome := Processed(p.ui, report, p.core.limits, p.core.state);
      Pair(HandleAll(p.core, outcome.messages, |outcome.messages|), outcome.ui)
    case Other(event) => p.(core := HandleEvent(p.core, event).core)
  }

  lemma AdvanceKeepsLimits(p: Pair, e: HidEvent)
    requires ValidLimits(p.core.limits)
    ensures Advance(p, e).core.limits == p.core.limits
  {
    if e.Other? { StepKeepsLimits(p.core, e.event); }
  }

  function AdvanceAll(p: Pair, events: seq<HidEvent>): (r: Pair)
    requires ValidLimits(p.core.limits)
    ensures r.core.limits == p.core.limits
    decreases |events|
  {
    if events == [] then p
    else AdvanceKeepsLimits(p, events[0]); AdvanceAll(Advance(p, events[0]), events[1..])
  }

  // All that the core changes while it handles the messages of a report.
  function HandledAll(w: World, messages: seq<ClientMessage>, n: nat): (r: World)
    requires ValidLimits(w.core.limits) && n <= |messages|
    ensures r.core == HandleAll(w.core, messages, n)
  {
    if n == 0 then w
    else
      var before := HandledAll(w, messages, n - 1);
      After(before, HandleMessage(before.core, Hid, messages[n - 1]))
  }

  /**
    The core's handling of a report from the handheld: the objects of the program do what Advance says,
    and everything else that the messages lead to, in their order.
   */
  method HandleInputReport(core: CoreManager, ui: UiManager, report: InputReport, display: seq<VariableEntry>)
    requires ui.Valid() && ValidLimits(core.limits)
    modifies core, core.actions, core.shared, ui
    ensures ui.Valid()
    ensures Pair(core.Data(), ui.View()) == Advance(old(Pair(core.Data(), ui.View())), Report(report))
    ensures
      var messages := Processed(old(ui.View()), report, core.limits, old(core.coreState)).messages;
      core.View() == HandledAll(old(core.View()), messages, |messages|)
  {
    hide HandleMessage, Processed;
    var messages := ui.ProcessInputReport(report, core.limits, core.coreState, display);
    for i := 0 to |messages|
      modifies core, core.actions, core.shared
      invariant core.View() == HandledAll(old(core.View()), messages, i)
    {
      core.HandleClientMessage(Hid, messages[i]);
    }
  }

  predicate Mirrors(p: Pair) {
    IsWriter(p.core, Hid) ==> p.core.active == CommandsOf(p.ui)
  }

  // An event from elsewhere cannot make the handheld the writer, nor change the set while it is.
  lemma OtherEventsKeepMirror(p: Pair, event: Event)
    requires ValidLimits(p.core.limits) && Mirrors(p) && Plausible(Other(event))
    ensures Mirrors(Advance(p, Other(event)))
  {
  }

  lemma ReportBringsStep(p: Pair, report: InputReport)
    requires ValidLimits(p.core.limits) && Mirrors(p)
    ensures InStep(Advance(p, Report(report)).core, Advance(p, Report(report)).ui)
  {
    hide HandleMessage, TurnAll, ReactAll;
    if !IsWriter(p.core, Hid) {
      TakeOverBringsStep(p.core, p.ui);
    } else {
      var deltas := report.encoderDeltas;
      var turned := TurnAll(p.ui, deltas, p.core.limits, |deltas|);
      TurnsKeepStep(p.core, p.ui, deltas, |deltas|);
      var core := HandleAll(p.core, turned.messages, |turned.messages|);
      var driveState := p.core.state.feedback.driveState;
      var reacted := ReactAll(turned.ui, report.events, driveState, |report.events|);
      ReactionsKeepStep(core, turned.ui, report.events, driveState, |report.events|);
      HandleAllAppend(p.core, turned.messages, reacted.messages, |reacted.messages|);
    }
  }

  /**
    Over every run in which only the reports speak for the handheld, at every event boundary at which
    it holds write access the active set is its manager's two commands.
   */
  lemma {:induction false} MirrorHolds(p: Pair, events: seq<HidEvent>)
    requires ValidLimits(p.core.limits) && Mirrors(p)
    requires forall i | 0 <= i < |events| :: Plausible(events[i])
    ensures Mirrors(AdvanceAll(p, events))
    decreases |events|
  {
    if events != [] {
      AdvanceKeepsLimits(p, events[0]);
      assert Plausible(events[0]);
      match events[0] {
        case Report(report) => ReportBringsStep(p, report);
        case Other(event) => OtherEventsKeepMirror(p, event);
      }
      MirrorHolds(Advance(p, events[0]), events[1..]);
    }
  }

  // ----- the stroke -----

  predicate Ordered(ui: Ui, limits: SystemLimits) {
    0 <= ui.first.position <= ui.second.position <= limits.position
  }

  lemma TurnKeepsOrder(ui: Ui, encoder: nat, delta: i8, limits: SystemLimits)
    requires ValidLimits(limits) && Ordered(ui, limits)
    ensures Ordered(Turn(ui, encoder, delta, limits).ui, limits)
  {
  }

  lemma {:induction false} TurnsKeepOrder(ui: Ui, deltas: seq<i8>, limits: SystemLimits, n: nat)
    requires ValidLimits(limits) && Ordered(ui, limits) && n <= |deltas|
    ensures Ordered(TurnAll(ui, deltas, limits, n).ui, limits)
  {
    if n > 0 {
      TurnsKeepOrder(ui, deltas, limits, n - 1);
      TurnKeepsOrder(TurnAll(ui, deltas, limits, n - 1).ui, n - 1, deltas[n - 1], limits);
    }
  }

  lemma {:induction false} ReactionsKeepOrder(
    ui: Ui, events: seq<HidInputEvent>, driveState: DriveState, limits: SystemLimits, n: nat
  )
    requires ValidLimits(limits) && Ordered(ui, limits) && n <= |events|
    ensures Ordered(ReactAll(ui, events, driveState, n).ui, limits)
  {
    if n > 0 {
      ReactionsKeepOrder(ui, events, driveState, limits, n - 1);
    }
  }

  /** Over every run, 0 <= start <= end <= limit. */
  lemma {:induction false} StrokeStaysOrdered(p: Pair, events: seq<HidEvent>)
    requires ValidLimits(p.core.limits) && Ordered(p.ui, p.core.limits)
    ensures Ordered(AdvanceAll(p, events).ui, p.core.limits)
    decreases |events|
  {
    if events != [] {
      AdvanceKeepsLimits(p, events[0]);
      if events[0].Report? {
        var report := events[0].report;
        TurnsKeepOrder(p.ui, report.encoderDeltas, p.core.limits, |report.encoderDeltas|);
        var turned := TurnAll(p.ui, report.encoderDeltas, p.core.limits, |report.encoderDeltas|);
        ReactionsKeepOrder(turned.ui, report.events, p.core.state.feedback.driveState, p.core.limits, |report.events|);
      }
      StrokeStaysOrdered(Advance(p, events[0]), events[1..]);
    }
  }

  function Stroke(ui: Ui): int {
    ui.second.position - ui.first.position
  }

  /**
    Turning an end while the start is held never lengthens the stroke, and keeps it exactly when neither
    end clamps, or there is no stroke to lose.
   */
  lemma HeldTurnShiftsStroke(ui: Ui, encoder: nat, delta: i8, limits: SystemLimits)
    requires ValidLimits(limits) && Ordered(ui, limits) && ui.holdingStart && encoder < 2
    ensures
      var moved := Turn(ui, encoder, delta, limits).ui;
      var shift := Quadratic(delta);
      var free := 0 <= ui.first.position + shift && ui.second.position + shift <= limits.position;
      && Stroke(moved) <= Stroke(ui)
      && (Stroke(moved) == Stroke(ui) <==> Stroke(ui) == 0 || free)
      && (free ==> moved.first.position == ui.first.position + shift)
  {
    if delta == 0 { assert Quadratic(delta) == 0; }
  }

  /** The scaling of an encoder movement never leaves an i32, at any of its multiplications. */
  lemma ScalingFits(delta: i8)
    ensures IsI32(delta * Abs(delta)) && IsI32(Quadratic(delta))
    ensures IsI32(delta * Abs(delta) * Abs(delta)) && IsI32(Cubic(delta))
  {
    var a: int := Abs(delta);
    assert a * a <= 128 * 128 by { MulMono(a, a, 128); MulMono(128, a, 128); }
    assert a * a * a <= 128 * 128 * 128 by { MulMono(a * a, a, 128); MulMono(128, a * a, 128 * 128); }
    if delta < 0 {
      assert delta * a == -(a * a);
      assert delta * a * a == -(a * a * a);
    } else {
      MulMono(a, 0, a);
      MulMono(a * a, 0, a);
    }
  }
}

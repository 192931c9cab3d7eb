/** Who may write, what every message is answered with, and the saved command sets. */
module WriteAccess {
  import opened Base
  import opened Messages
  import opened Core
  import opened Replicas

  // Whether the event can take write access away from the controller that holds it.
  predicate Dislodges(core: CoreData, id: ControllerId, event: Event) {
    || event == ControllerDisconnected(id)
    || (event.FromController? && event.id == id && event.message.ReleaseWriteAccess?)
    || (event.FromController? && event.id != id && event.message.RequestWriteAccess?
        && (event.id == Hid || core.state.feedback.driveState == Off))
  }

  predicate NeverDislodged(core: CoreData, id: ControllerId, events: seq<Event>)
    requires ValidLimits(core.limits)
    decreases |events|
  {
    if events == [] then true
    else
      StepKeepsLimits(core, events[0]);
      !Dislodges(core, id, events[0]) && NeverDislodged(HandleEvent(core, events[0]).core, id, events[1..])
  }

  /**
    The writer keeps write access through an event unless it leaves or releases it, the handheld asks
    for it, or anyone asks for it while the drive is off. Those events do end it.
   */
  lemma WriterStep(core: CoreData, id: ControllerId, event: Event)
    requires ValidLimits(core.limits) && IsWriter(core, id)
    ensures IsWriter(HandleEvent(core, event).core, id) <==> !Dislodges(core, id, event)
  {
  }

  /** Over every run without such an event, the writer stays the writer. */
  lemma {:induction false} WriterKeepsAccess(core: CoreData, id: ControllerId, events: seq<Event>)
    requires ValidLimits(core.limits) && IsWriter(core, id) && NeverDislodged(core, id, events)
    ensures IsWriter(RunCore(core, events), id)
    decreases |events|
  {
    hide HandleEvent, Dislodges;
    if events != [] {
      StepKeepsLimits(core, events[0]);
      WriterStep(core, id, events[0]);
      WriterKeepsAccess(HandleEvent(core, events[0]).core, id, events[1..]);
    }
  }

  /** Nobody becomes the writer without asking for it. */
  lemma AccessIsAskedFor(core: CoreData, id: ControllerId, event: Event)
    requires ValidLimits(core.limits) && !IsWriter(core, id) && IsWriter(HandleEvent(core, event).core, id)
    ensures event.FromController? && event.id == id && event.message.RequestWriteAccess?
    ensures core.state.writeAccessHolder.None? || id == Hid || core.state.feedback.driveState == Off
  {
  }

  /**
    Every change of the holder is announced to all, with the new and the previous one, and nothing else is.
    Whoever asks is granted access exactly if nobody holds it, the drive is off, or it is the handheld, and is
    told who holds it afterwards. So a client that holds it and asks again while the drive is on is told that
    it is not granted, and keeps it.
   */
  lemma HolderIsAnnounced(core: CoreData, event: Event)
    requires ValidLimits(core.limits)
    ensures
      var step := HandleEvent(core, event);
      var before, after := core.state.writeAccessHolder, step.core.state.writeAccessHolder;
      && (before != after <==> Post(None, WriteAccessChanged(after, before)) in step.posts)
      && (forall i | 0 <= i < |step.posts| && step.posts[i].message.WriteAccessChanged? ::
            step.posts[i] == Post(None, WriteAccessChanged(after, before)))
      && (event.FromController? && event.message.RequestWriteAccess? ==>
            var granted := before.None? || core.state.feedback.driveState == Off || event.id == Hid;
            && after == (if granted then Some(event.id) else before)
            && step.posts != []
            && step.posts[|step.posts| - 1] == Post(Some(event.id), WriteAccessResult(event.message.seqNo, granted, after)))
  {
    var step := HandleEvent(core, event);
    var before, after := core.state.writeAccessHolder, step.core.state.writeAccessHolder;
    if before != after { assert step.posts[0] == Post(None, WriteAccessChanged(after, before)); }
  }

  /** A controller that connects, or asks, is told the core's state; feedback of the drive is told to all. */
  lemma StateIsTold(core: CoreData, id: ControllerId, n: nat, feedback: DriveFeedback)
    requires ValidLimits(core.limits)
    ensures HandleEvent(core, ControllerConnected(id)).posts == [Post(Some(id), Connected(id, core.limits, core.state))]
    ensures HandleEvent(core, FromController(id, GetState(n))).posts == [Post(Some(id), State(Some(n), core.state))]
    ensures
      var step := HandleEvent(core, DriveStateUpdated(feedback));
      && step.core == core.(state := core.state.(feedback := feedback))
      && step.posts == [Post(None, State(None, step.core.state))]
  {
  }

  /** At first nobody holds access, so whoever asks first gets it. Before any feedback no other client does. */
  lemma FirstComes(limits: SystemLimits, id: ControllerId, n: nat, other: ControllerId, m: nat)
    requires ValidLimits(limits) && other != Hid
    ensures
      var first := HandleEvent(InitialCore(limits), FromController(id, RequestWriteAccess(n)));
      && first.posts
         == [Post(None, WriteAccessChanged(Some(id), None)), Post(Some(id), WriteAccessResult(n, true, Some(id)))]
      && first.core.limits == limits
      && HandleEvent(first.core, FromController(other, RequestWriteAccess(m))).posts
         == [Post(Some(other), WriteAccessResult(m, false, Some(id)))]
    ensures
      HandleEvent(InitialCore(limits), FromController(id, GetCommandSet(n, None))).posts
      == [Post(Some(id), CommandSet(n, None, 0, []))]
    ensures
      HandleEvent(InitialCore(limits), FromController(id, ListSavedSets(n))).posts
      == [Post(Some(id), SavedSetList(n, map[]))]
  {
  }

  /** Whoever asks for a command set is sent its version and list, or told that there is none of that name. */
  lemma SetIsRead(core: CoreData, id: ControllerId, n: nat, name: string)
    requires ValidLimits(core.limits)
    ensures HandleMessage(core, id, GetCommandSet(n, None))
         == Step(core, None, {}, [Post(Some(id), CommandSet(n, None, core.version, core.active))])
    ensures HandleMessage(core, id, GetCommandSet(n, Some(name)))
         == Step(core, None, {}, [Post(Some(id),
              if name in core.saved then CommandSet(n, Some(name), core.saved[name].0, core.saved[name].1)
              else Ack(n, Some(NotFound)))])
  {
  }

  // ----- answers -----

  predicate IsFailure(message: CoreMessage) {
    match message
    case Ack(_, failure) => failure.Some?
    case WriteAccessResult(_, granted, _) => !granted
    case CommandResult(_, success, _) => !success
    case _ => false
  }

  predicate AnswersTo(post: Post, id: ControllerId, seqNo: nat) {
    && post.destination == Some(id)
    && match post.message
       case Ack(n, _) => n == seqNo
       case WriteAccessResult(n, _, _) => n == seqNo
       case CommandSet(n, _, _, _) => n == seqNo
       case CommandResult(n, _, _) => n == seqNo
       case SavedSetList(n, _) => n == seqNo
       case State(reply, _) => reply == Some(seqNo)
       case _ => false
  }

  /**
    Every message is answered, once and last, to its sender and under its number; everything else that
    is sent goes to all. A failure leaves everything as it was.
   */
  lemma EveryMessageIsAnswered(core: CoreData, id: ControllerId, message: ClientMessage)
    requires ValidLimits(core.limits)
    ensures
      var step := HandleMessage(core, id, message);
      var last := |step.posts| - 1;
      && step.posts != []
      && AnswersTo(step.posts[last], id, message.seqNo)
      && (forall i | 0 <= i < last :: step.posts[i].destination.None?)
      && (IsFailure(step.posts[last].message) ==> step == Step(core, None, {}, [step.posts[last]]))
  {
    hide ClampAll, Updated, ActionAllowed, VersionMatches;
  }

  // Messages that only the writer may send.
  predicate NeedsWriter(message: ClientMessage) {
    || message.ReleaseWriteAccess? || message.UpdateCommand? || message.SetDrivePower?
    || message.SetMotionState? || message.AcknowledgeError?
    || (message.UpsertCommandSet? && message.name.None?) || (message.DeleteCommandSet? && message.name.None?)
  }

  /** These are refused for that reason exactly to everyone else. */
  lemma OthersAreRefused(core: CoreData, id: ControllerId, message: ClientMessage)
    requires ValidLimits(core.limits)
    ensures
      var posts := HandleMessage(core, id, message).posts;
      && posts != []
      && (posts[|posts| - 1].message == Ack(message.seqNo, Some(NotWriter))
          <==> NeedsWriter(message) && !IsWriter(core, id))
  {
    hide ClampAll, Updated, VersionMatches;
  }

  /**
    A change of one command of the active set is announced exactly if it changes the command, and refused
    exactly if there is no such command. The version answered is that of the set afterwards.
   */
  lemma UpdateExactly(core: CoreData, id: ControllerId, n: nat, update: CommandUpdate)
    requires ValidLimits(core.limits) && IsWriter(core, id)
    ensures
      var step := HandleMessage(core, id, UpdateCommand(n, update));
      if |core.active| <= update.index then
        step == Step(core, None, {}, [Post(Some(id), Ack(n, Some(OutOfRange)))])
      else
        && |step.core.active| == |core.active|
        && TakesFields(core.active[update.index], update.fields, step.core.active[update.index])
        && (forall i | 0 <= i < |core.active| && i != update.index :: step.core.active[i] == core.active[i])
        && (Post(None, CommandSetChanged(step.core.version, Some(update))) in step.posts
            <==> step.core.active[update.index] != core.active[update.index])
        && step.posts[|step.posts| - 1] == Post(Some(id), CommandResult(n, true, step.core.version))
  {
    var step := HandleMessage(core, id, UpdateCommand(n, update));
    if update.index < |core.active| {
      if step.core.active[update.index] != core.active[update.index] {
        assert step.posts[0] == Post(None, CommandSetChanged(step.core.version, Some(update)));
      }
    }
  }

  // ----- saved sets -----

  // The event deletes the set: a message asks for it, and its base version is not stale.
  predicate Deletes(core: CoreData, event: Event, name: string)
    requires name in core.saved
  {
    && event.FromController? && event.message.DeleteCommandSet? && event.message.name == Some(name)
    && VersionMatches(event.message.baseVersion, core.saved[name].0)
  }

  predicate NeverDeleted(core: CoreData, events: seq<Event>, name: string)
    requires ValidLimits(core.limits) && name in core.saved
    decreases |events|
  {
    if events == [] then true
    else
      StepKeepsLimits(core, events[0]);
      SavedSetStep(core, events[0], name);
      !Deletes(core, events[0], name) && NeverDeleted(HandleEvent(core, events[0]).core, events[1..], name)
  }

  lemma SavedSetStep(core: CoreData, event: Event, name: string)
    requires ValidLimits(core.limits) && name in core.saved
    ensures name in HandleEvent(core, event).core.saved <==> !Deletes(core, event, name)
    ensures
      name in HandleEvent(core, event).core.saved ==>
        var before, after := core.saved[name], HandleEvent(core, event).core.saved[name];
        after == before || after.0 == before.0 + 1
  {
  }

  /** As long as a saved set is not deleted, its version denotes one list. */
  lemma {:induction false} SavedVersionDenotesOneList(core: CoreData, events: seq<Event>, name: string)
    requires ValidLimits(core.limits) && name in core.saved && NeverDeleted(core, events, name)
    ensures
      var later := RunCore(core, events);
      && name in later.saved && core.saved[name].0 <= later.saved[name].0
      && (core.saved[name].0 == later.saved[name].0 ==> core.saved[name] == later.saved[name])
    decreases |events|
  {
    hide HandleEvent, Deletes;
    if events != [] {
      StepKeepsLimits(core, events[0]);
      SavedSetStep(core, events[0], name);
      SavedVersionDenotesOneList(HandleEvent(core, events[0]).core, events[1..], name);
    }
  }

  /**
    A saved set is stored exactly if it is new or the base version, if there is one, is the current one. It
    then gets the next version, 1 if new. Otherwise nothing changes, and the current version is answered.
   */
  lemma ConditionalStore(
    core: CoreData, id: ControllerId, n: nat, name: string, baseVersion: Option<nat>, commands: seq<MotionCommand>
  )
    requires ValidLimits(core.limits)
    ensures
      var step := HandleMessage(core, id, UpsertCommandSet(n, Some(name), baseVersion, commands));
      var current := if name in core.saved then core.saved[name].0 else 0;
      if name !in core.saved || baseVersion.None? || baseVersion.value == current then
        && step.core == core.(saved := core.saved[name := (current + 1, commands)])
        && step.posts == [Post(Some(id), CommandResult(n, true, current + 1))]
      else step.core == core && step.posts == [Post(Some(id), CommandResult(n, false, current))]
  {
  }

  /** Likewise deleted, and not found if there is none. */
  lemma ConditionalDelete(core: CoreData, id: ControllerId, n: nat, name: string, baseVersion: Option<nat>)
    requires ValidLimits(core.limits)
    ensures
      var step := HandleMessage(core, id, DeleteCommandSet(n, Some(name), baseVersion));
      if name !in core.saved then step.core == core && step.posts == [Post(Some(id), Ack(n, Some(NotFound)))]
      else if baseVersion.None? || baseVersion.value == core.saved[name].0 then
        step.core == core.(saved := core.saved - {name}) && step.posts == [Post(Some(id), Ack(n, None))]
      else step.core == core && step.posts == [Post(Some(id), CommandResult(n, false, core.saved[name].0))]
  {
  }

  // The event may change the saved set of that name.
  predicate Touches(event: Event, name: string) {
    && event.FromController?
    && (event.message.UpsertCommandSet? || event.message.DeleteCommandSet?)
    && event.message.name == Some(name)
  }

  lemma UntouchedStep(core: CoreData, event: Event, name: string)
    requires ValidLimits(core.limits) && name in core.saved && !Touches(event, name)
    ensures name in HandleEvent(core, event).core.saved
    ensures HandleEvent(core, event).core.saved[name] == core.saved[name]
  {
  }

  lemma {:induction false} UntouchedSetStays(core: CoreData, events: seq<Event>, name: string)
    requires ValidLimits(core.limits) && name in core.saved
    requires forall i | 0 <= i < |events| :: !Touches(events[i], name)
    ensures name in RunCore(core, events).saved && RunCore(core, events).saved[name] == core.saved[name]
    decreases |events|
  {
    hide HandleEvent, Touches;
    if events != [] {
      StepKeepsLimits(core, events[0]);
      UntouchedStep(core, events[0], name);
      UntouchedSetStays(HandleEvent(core, events[0]).core, events[1..], name);
    }
  }

  lemma UpsertStores(
    core: CoreData, id: ControllerId, n: nat, name: string, baseVersion: Option<nat>, commands: seq<MotionCommand>
  ) returns (version: nat)
    requires ValidLimits(core.limits)
    requires HandleUpsertSaved(core, id, n, name, baseVersion, commands).posts[0].message.success
    ensures
      var step := HandleUpsertSaved(core, id, n, name, baseVersion, commands);
      && step.posts[0].message == CommandResult(n, true, version)
      && step.core == core.(saved := core.saved[name := (version, commands)])
  {
    version := HandleUpsertSaved(core, id, n, name, baseVersion, commands).posts[0].message.version;
  }

  /**
    What is stored is read back: after a successful upsert of a saved set, and whatever happens to the
    other sets, everyone who asks for it is sent the version that was answered and the list that was
    stored, and the names listed are those of the sets there are.
   */
  lemma StoredSetIsReadBack(
    core: CoreData, writer: ControllerId, n: nat, name: string, baseVersion: Option<nat>,
    commands: seq<MotionCommand>, events: seq<Event>, reader: ControllerId, m: nat
  ) returns (version: nat)
    requires ValidLimits(core.limits)
    requires forall i | 0 <= i < |events| :: !Touches(events[i], name)
    requires HandleUpsertSaved(core, writer, n, name, baseVersion, commands).posts[0].message.success
    ensures
      var step := HandleUpsertSaved(core, writer, n, name, baseVersion, commands);
      && step.posts[0].message == CommandResult(n, true, version)
      && ValidLimits(step.core.limits)
      && var later := RunCore(step.core, events);
         && HandleMessage(later, reader, GetCommandSet(m, Some(name))).posts
            == [Post(Some(reader), CommandSet(m, Some(name), version, commands))]
         && exists versions: map<string, nat> ::
              && HandleMessage(later, reader, ListSavedSets(m)).posts
                 == [Post(Some(reader), SavedSetList(m, versions))]
              && versions.Keys == later.saved.Keys && name in versions && versions[name] == version
  {
    hide HandleUpsertSaved, HandleEvent, Touches, RunCore;
    version := UpsertStores(core, writer, n, name, baseVersion, commands);
    var stored := core.(saved := core.saved[name := (version, commands)]);
    UntouchedSetStays(stored, events, name);
    var later := RunCore(stored, events);
    var versions := map name | name in later.saved :: later.saved[name].0;
    assert HandleMessage(later, reader, ListSavedSets(m)).posts == [Post(Some(reader), SavedSetList(m, versions))];
  }

  // The list stored again and again.
  function Stores(id: ControllerId, name: string, commands: seq<MotionCommand>, times: nat): seq<Event> {
    seq(times, _ => FromController(id, UpsertCommandSet(0, Some(name), None, commands)))
  }

  lemma {:induction false} StoresCount(
    core: CoreData, id: ControllerId, name: string, commands: seq<MotionCommand>, times: nat
  )
    requires ValidLimits(core.limits) && 0 < times
    ensures
      var later := RunCore(core, Stores(id, name, commands, times));
      && name in later.saved
      && later.saved[name] == ((if name in core.saved then core.saved[name].0 else 0) + times, commands)
    decreases times
  {
    var events := Stores(id, name, commands, times);
    var step := HandleEvent(core, events[0]);
    assert events[1..] == Stores(id, name, commands, times - 1);
    StepKeepsLimits(core, events[0]);
    if times > 1 {
      StoresCount(step.core, id, name, commands, times - 1);
    } else {
      assert RunCore(step.core, events[1..]) == step.core;
    }
  }

  lemma DeletionRemoves(core: CoreData, id: ControllerId, name: string)
    requires ValidLimits(core.limits) && name in core.saved
    ensures
      var after := HandleEvent(core, FromController(id, DeleteCommandSet(0, Some(name), None))).core;
      name !in after.saved && after.limits == core.limits
  {
  }

  predicate Numbered(core: CoreData) {
    forall name | name in core.saved :: 0 < core.saved[name].0
  }

  lemma NumberedStep(core: CoreData, event: Event)
    requires ValidLimits(core.limits) && Numbered(core)
    ensures Numbered(HandleEvent(core, event).core)
  {
    hide ClampAll, Updated;
  }

  // No saved set ever has version 0.
  lemma {:induction false} VersionsArePositive(core: CoreData, events: seq<Event>)
    requires ValidLimits(core.limits) && Numbered(core)
    ensures Numbered(RunCore(core, events))
    decreases |events|
  {
    hide HandleEvent, Numbered;
    if events != [] {
      StepKeepsLimits(core, events[0]);
      NumberedStep(core, events[0]);
      VersionsArePositive(HandleEvent(core, events[0]).core, events[1..]);
    }
  }

  /**
    Across a deletion it does not: the numbers start again, so that whatever version a set has, it can
    come to denote any other list.
   */
  lemma DeletedSetStartsAgain(core: CoreData, id: ControllerId, name: string, commands: seq<MotionCommand>)
    requires ValidLimits(core.limits) && Numbered(core) && name in core.saved
    ensures
      var version := core.saved[name].0;
      var events := [FromController(id, DeleteCommandSet(0, Some(name), None))] + Stores(id, name, commands, version);
      name in RunCore(core, events).saved && RunCore(core, events).saved[name] == (version, commands)
  {
    hide Stores, HandleEvent;
    var version := core.saved[name].0;
    var deletion := FromController(id, DeleteCommandSet(0, Some(name), None));
    var events := [deletion] + Stores(id, name, commands, version);
    DeletionRemoves(core, id, name);
    assert events[0] == deletion && events[1..] == Stores(id, name, commands, version);
    StoresCount(HandleEvent(core, deletion).core, id, name, commands, version);
  }
}

/**
  The version numbers of the active command set, and the copies of it that controllers keep from the
  messages they are sent.
 */
module Replicas {
  import opened Base
  import opened Messages
  import opened Core

  predicate WellFormed(core: CoreData) {
    ValidLimits(core.limits) && core.state.commandSetVersion == core.version
  }

  function RunCore(core: CoreData, events: seq<Event>): (r: CoreData)
    requires ValidLimits(core.limits)
    ensures r.limits == core.limits
    decreases |events|
  {
    if events == [] then core
    else StepKeepsLimits(core, events[0]); RunCore(HandleEvent(core, events[0]).core, events[1..])
  }

  lemma StepKeepsLimits(core: CoreData, event: Event)
    requires ValidLimits(core.limits)
    ensures HandleEvent(core, event).core.limits == core.limits
  {
  }

  lemma MessageKeepsLimits(core: CoreData, id: ControllerId, message: ClientMessage)
    requires ValidLimits(core.limits)
    ensures HandleMessage(core, id, message).core.limits == core.limits
  {
  }

  // Everything sent while the events are handled.
  function PostsOf(core: CoreData, events: seq<Event>): seq<Post>
    requires ValidLimits(core.limits)
    decreases |events|
  {
    if events == [] then []
    else
      StepKeepsLimits(core, events[0]);
      var step := HandleEvent(core, events[0]);
      step.posts + PostsOf(step.core, events[1..])
  }

  predicate IsChange(post: Post) {
    post.message.CommandSetChanged?
  }

  function Changes(posts: seq<Post>): seq<Post> {
    if posts == [] then []
    else (if IsChange(posts[0]) then [posts[0]] else []) + Changes(posts[1..])
  }

  lemma {:induction false} ChangesAppend(p: seq<Post>, q: seq<Post>)
    ensures Changes(p + q) == Changes(p) + Changes(q)
  {
    hide IsChange;
    if p == [] {
      assert p + q == q;
    } else {
      var head := if IsChange(p[0]) then [p[0]] else [];
      ChangesAppend(p[1..], q);
      assert (p + q)[1..] == p[1..] + q && (p + q)[0] == p[0];
      assert Changes(p + q) == head + Changes(p[1..] + q);
      assert head + (Changes(p[1..]) + Changes(q)) == (head + Changes(p[1..])) + Changes(q);
    }
  }

  // The change that leads from one list to the next.
  predicate Explains(update: Option<CommandUpdate>, before: seq<MotionCommand>, after: seq<MotionCommand>) {
    update.Some? ==> update.value.index < |before| && after == Updated(before, update.value)
  }

  /**
    One event either leaves version and list alone and announces no change, or raises the version by
    one, publishes it, and announces it to every controller, with an update that leads from the old
    list to the new one or with none.
   */
  lemma VersionStep(core: CoreData, event: Event)
    requires WellFormed(core)
    ensures
      var step := HandleEvent(core, event);
      && WellFormed(step.core)
      && (|| (step.core.version == core.version && step.core.active == core.active && Changes(step.posts) == [])
          || (&& step.core.version == core.version + 1
              && exists update ::
                   Changes(step.posts) == [Post(None, CommandSetChanged(core.version + 1, update))]
                   && Explains(update, core.active, step.core.active)))
  {
    var step := HandleEvent(core, event);
    if step.core.version != core.version {
      var change := FirstIsChange(core, event);
      NoChanges(step.posts[1..]);
      assert Changes(step.posts) == [change];
      assert Explains(change.message.update, core.active, step.core.active);
    } else {
      SameVersion(core, event);
      NoChanges(step.posts);
    }
  }

  lemma FirstIsChange(core: CoreData, event: Event) returns (change: Post)
    requires WellFormed(core) && HandleEvent(core, event).core.version != core.version
    ensures
      var step := HandleEvent(core, event);
      && step.posts != [] && change == step.posts[0]
      && change.destination.None?
      && change.message.CommandSetChanged? && change.message.version == core.version + 1 == step.core.version
      && WellFormed(step.core)
      && Explains(change.message.update, core.active, step.core.active)
      && forall i | 0 < i < |step.posts| :: !IsChange(step.posts[i])
  {
    change := HandleEvent(core, event).posts[0];
  }

  lemma SameVersion(core: CoreData, event: Event)
    requires WellFormed(core) && HandleEvent(core, event).core.version == core.version
    ensures
      var step := HandleEvent(core, event);
      && WellFormed(step.core) && step.core.active == core.active
      && forall i | 0 <= i < |step.posts| :: !IsChange(step.posts[i])
  {
    hide ClampAll, Updated;
  }

  lemma {:induction false} NoChanges(posts: seq<Post>)
    requires forall i | 0 <= i < |posts| :: !IsChange(posts[i])
    ensures Changes(posts) == []
  {
    if posts != [] {
      NoChanges(posts[1..]);
    }
  }

  /** Over every run the versions announced count up by one from the version the run starts with. */
  lemma {:induction false} AnnouncedVersionsCountUp(core: CoreData, events: seq<Event>, k: nat)
    requires WellFormed(core)
    ensures var changes := Changes(PostsOf(core, events));
      && core.version + |changes| == RunCore(core, events).version
      && WellFormed(RunCore(core, events))
      && (k < |changes| ==>
            && changes[k].destination.None?
            && changes[k].message.CommandSetChanged?
            && changes[k].message.version == core.version + 1 + k)
    decreases |events|
  {
    if events != [] {
      var step := HandleEvent(core, events[0]);
      VersionStep(core, events[0]);
      ChangesAppend(step.posts, PostsOf(step.core, events[1..]));
      AnnouncedVersionsCountUp(step.core, events[1..], if |Changes(step.posts)| <= k then k - |Changes(step.posts)| else 0);
    }
  }

  /** A version number denotes one list: as long as the number stays, the list does. */
  lemma {:induction false} VersionDenotesOneList(core: CoreData, events: seq<Event>)
    requires WellFormed(core)
    ensures core.version <= RunCore(core, events).version
    ensures RunCore(core, events).version == core.version ==>
      RunCore(core, events).active == core.active && Changes(PostsOf(core, events)) == []
    decreases |events|
  {
    if events != [] {
      var step := HandleEvent(core, events[0]);
      VersionStep(core, events[0]);
      VersionDenotesOneList(step.core, events[1..]);
      ChangesAppend(step.posts, PostsOf(step.core, events[1..]));
    }
  }

  /**
    A controller that read the set at some version may replace it on the condition that it is still
    that version. The core accepts exactly when the controller is the writer and nothing has been
    announced since, and then the list replaced is the one that was read.
   */
  lemma ConditionalReplace(
    core: CoreData, events: seq<Event>, id: ControllerId, n: nat, commands: seq<MotionCommand>
  )
    requires WellFormed(core)
    ensures
      var later := RunCore(core, events);
      var step := HandleReplaceActive(later, id, n, Some(core.version), commands);
      && (step.core != later <==> IsWriter(later, id) && Changes(PostsOf(core, events)) == [])
      && (step.core != later ==> later.active == core.active && step.core.active == commands)
  {
    VersionDenotesOneList(core, events);
    AnnouncedVersionsCountUp(core, events, 0);
  }

  // ----- replicas -----

  // A controller's copy: the version it knows of, and the list while it knows that too.
  datatype Replica = Replica(version: nat, commands: Option<seq<MotionCommand>>)

  // What the copy becomes when its owner is sent a message. A change without an update has to be fetched.
  function Follow(r: Replica, id: ControllerId, post: Post): Replica {
    if post.destination.Some? && post.destination.value != id then r
    else
      match post.message
      case CommandSetChanged(version, update) =>
        Replica(version,
                if update.Some? && r.commands.Some? && update.value.index < |r.commands.value|
                then Some(Updated(r.commands.value, update.value)) else None)
      case CommandSet(_, None, version, commands) => Replica(version, Some(commands))
      case _ => r
  }

  function FollowAll(r: Replica, id: ControllerId, posts: seq<Post>): Replica
    decreases |posts|
  {
    if posts == [] then r else FollowAll(Follow(r, id, posts[0]), id, posts[1..])
  }

  predicate Agrees(r: Replica, core: CoreData) {
    r.version == core.version && (r.commands.Some? ==> r.commands.value == core.active)
  }

  lemma {:induction false} FollowAppend(r: Replica, id: ControllerId, p: seq<Post>, q: seq<Post>)
    ensures FollowAll(r, id, p + q) == FollowAll(FollowAll(r, id, p), id, q)
    decreases |p|
  {
    if p == [] {
      assert p + q == q;
    } else {
      assert (p + q)[1..] == p[1..] + q;
      FollowAppend(Follow(r, id, p[0]), id, p[1..], q);
    }
  }

  // A message that leaves a copy of the core's set as it is.
  predicate Truthful(post: Post, core: CoreData) {
    && !IsChange(post)
    && (post.message.CommandSet? && post.message.name.None? ==>
          post.message.version == core.version && post.message.commands == core.active)
  }

  lemma {:induction false} FollowTruthful(r: Replica, id: ControllerId, posts: seq<Post>, core: CoreData)
    requires Agrees(r, core) && forall i | 0 <= i < |posts| :: Truthful(posts[i], core)
    ensures Agrees(FollowAll(r, id, posts), core)
    decreases |posts|
  {
    if posts != [] {
      assert Truthful(posts[0], core);
      FollowTruthful(Follow(r, id, posts[0]), id, posts[1..], core);
    }
  }

  lemma PostsAreTruthful(core: CoreData, event: Event)
    requires WellFormed(core)
    ensures
      var step := HandleEvent(core, event);
      forall i | (if step.core.version == core.version then 0 else 1) <= i < |step.posts| ::
        Truthful(step.posts[i], step.core)
  {
    hide ClampAll, Updated;
  }

  lemma FollowStep(r: Replica, id: ControllerId, core: CoreData, event: Event)
    requires WellFormed(core) && Agrees(r, core)
    ensures Agrees(FollowAll(r, id, HandleEvent(core, event).posts), HandleEvent(core, event).core)
  {
    var step := HandleEvent(core, event);
    PostsAreTruthful(core, event);
    if step.core.version == core.version {
      VersionStep(core, event);
      FollowTruthful(r, id, step.posts, step.core);
    } else {
      var change := FirstIsChange(core, event);
      FollowTruthful(Follow(r, id, change), id, step.posts[1..], step.core);
    }
  }

  // Whether the owner of a copy knows the list after a message: a replacement loses it, a fetch restores it.
  predicate KnowsAfter(known: bool, id: ControllerId, post: Post) {
    if post.destination.Some? && post.destination.value != id then known
    else
      match post.message
      case CommandSetChanged(_, update) => known && update.Some?
      case CommandSet(_, None, _, _) => true
      case _ => known
  }

  predicate Knows(known: bool, id: ControllerId, posts: seq<Post>)
    decreases |posts|
  {
    if posts == [] then known else Knows(KnowsAfter(known, id, posts[0]), id, posts[1..])
  }

  lemma {:induction false} KnowsAppend(known: bool, id: ControllerId, p: seq<Post>, q: seq<Post>)
    ensures Knows(known, id, p + q) == Knows(Knows(known, id, p), id, q)
    decreases |p|
  {
    if p == [] {
      assert p + q == q;
    } else {
      assert (p + q)[1..] == p[1..] + q;
      KnowsAppend(KnowsAfter(known, id, p[0]), id, p[1..], q);
    }
  }

  lemma {:induction false} KnowsWithoutChange(r: Replica, id: ControllerId, posts: seq<Post>)
    requires forall i | 0 <= i < |posts| :: !IsChange(posts[i])
    ensures FollowAll(r, id, posts).commands.Some? <==> Knows(r.commands.Some?, id, posts)
    decreases |posts|
  {
    if posts != [] {
      assert !IsChange(posts[0]);
      KnowsWithoutChange(Follow(r, id, posts[0]), id, posts[1..]);
    }
  }

  lemma KnowsStep(r: Replica, id: ControllerId, core: CoreData, event: Event)
    requires WellFormed(core) && Agrees(r, core)
    ensures
      var posts := HandleEvent(core, event).posts;
      FollowAll(r, id, posts).commands.Some? <==> Knows(r.commands.Some?, id, posts)
  {
    hide HandleEvent;
    var step := HandleEvent(core, event);
    if step.core.version == core.version {
      SameVersion(core, event);
      KnowsWithoutChange(r, id, step.posts);
    } else {
      var change := FirstIsChange(core, event);
      KnowsWithoutChange(Follow(r, id, change), id, step.posts[1..]);
    }
  }

  /**
    A copy that agrees with the core and follows every message sent to its owner agrees with it after
    every run: it has the core's version, and it has the core's list exactly if none of the changes was a
    whole replacement or the list has been fetched since the last one.
   */
  lemma {:induction false} ReplicaStaysConsistent(r: Replica, id: ControllerId, core: CoreData, events: seq<Event>)
    requires WellFormed(core) && Agrees(r, core)
    ensures
      var posts, later := PostsOf(core, events), RunCore(core, events);
      FollowAll(r, id, posts)
      == Replica(later.version, if Knows(r.commands.Some?, id, posts) then Some(later.active) else None)
    decreases |events|
  {
    hide HandleEvent;
    if events != [] {
      var step := HandleEvent(core, events[0]);
      VersionStep(core, events[0]);
      FollowStep(r, id, core, events[0]);
      KnowsStep(r, id, core, events[0]);
      FollowAppend(r, id, step.posts, PostsOf(step.core, events[1..]));
      KnowsAppend(r.commands.Some?, id, step.posts, PostsOf(step.core, events[1..]));
      ReplicaStaysConsistent(FollowAll(r, id, step.posts), id, step.core, events[1..]);
    }
  }

  lemma {:induction false} UpdatesKeepKnown(id: ControllerId, posts: seq<Post>)
    requires forall i | 0 <= i < |Changes(posts)| :: IsChange(Changes(posts)[i]) && Changes(posts)[i].message.update.Some?
    ensures Knows(true, id, posts)
    decreases |posts|
  {
    if posts != [] {
      var rest := Changes(posts[1..]);
      if IsChange(posts[0]) {
        assert Changes(posts) == [posts[0]] + rest;
        assert Changes(posts)[0] == posts[0];
        assert forall i | 0 <= i < |rest| :: rest[i] == Changes(posts)[i + 1];
      } else {
        assert Changes(posts) == rest;
      }
      UpdatesKeepKnown(id, posts[1..]);
    }
  }

  /** While every change announced carries an update, nothing has to be fetched: the copy is the set. */
  lemma UpdatesSuffice(id: ControllerId, core: CoreData, events: seq<Event>)
    requires WellFormed(core)
    requires
      var changes := Changes(PostsOf(core, events));
      forall i | 0 <= i < |changes| :: IsChange(changes[i]) && changes[i].message.update.Some?
    ensures
      var later := RunCore(core, events);
      FollowAll(Replica(core.version, Some(core.active)), id, PostsOf(core, events))
      == Replica(later.version, Some(later.active))
  {
    ReplicaStaysConsistent(Replica(core.version, Some(core.active)), id, core, events);
    UpdatesKeepKnown(id, PostsOf(core, events));
  }

  /** A fetch restores any copy. */
  lemma FetchRestores(r: Replica, id: ControllerId, core: CoreData, n: nat)
    requires ValidLimits(core.limits)
    ensures FollowAll(r, id, HandleMessage(core, id, GetCommandSet(n, None)).posts)
         == Replica(core.version, Some(core.active))
  {
    var posts := HandleMessage(core, id, GetCommandSet(n, None)).posts;
    assert posts[1..] == [];
  }
}

# Puddle: a verified model

Puddle drives a LinMot servo in a hard real-time loop. A core thread arbitrates which controller (a
handheld over USB HID, or clients over WebSocket) may write, keeps versioned lists of motion commands,
and publishes the active list, clamped to the system limits, to the drive thread. The drive thread sends
one request per tick over LinUDP, decides when a waypoint is reached, and raises the deceleration it
demands so that the drive does not run past a waypoint. This project models those parts in Dafny and
proves what they keep.

Code that updates state in place is a class or a method with a loop (`DriveActions`, `Connection`,
`CoreManager`, `UiManager`, the LinUDP `Writer` and `Reader`, the HID encoders), proved equal to a
function on values; the theorems are about those functions, over whole runs and interleavings. Code that
only computes is a function.

## Modules

| module | contents |
|---|---|
| Base, Messages | Rust integer operations, the message types, partial updates of a command |
| Kinematics, ClampTheorems | the predictors and the deceleration clamp; what one answer promises |
| ClosedLoop | no run that obeys the clamp passes target + margin |
| SharpBound | exactly which starts let a run that obeys the clamp pass the margin |
| MachineArithmetic | every 64-bit operation of the clamp, the predictors and the handoff gate, checked |
| Controller, ControllerRuns | one pass of the drive loop; direction, handoff, standstill and reflection over runs |
| ControllerLaws | flags, arrival, command, deceleration and feedback of a pass, from status word, interval and list |
| MotionSafety | controller and drive together: the approach to a waypoint, and the handoff to the next |
| MotionWitnesses | runs that meet the premises of MotionSafety, and one that the handoff gate should not grant |
| Core, WriteAccess, Replicas | the core's handling of every event; authority, answers, versions, replicas |
| OperatorControl | what the writer's messages do, at once and to the drive over every interleaving |
| Interleaving, EndToEnd | the two threads interleaved at will, down to the bytes of each request |
| HidMessages, HidUi, HidMirror | the handheld's manager, and its copy of the active list |
| HidControls | what each knob and button of the handheld does to the commands, the core and the drive |
| HidWire, HidDelta, HidScreen, HidInput | the HID reports, with the firmware's decoders as specifications |
| LinUdp | requests and responses on the wire |
| WireExamples | the layouts of the wire formats, byte by byte, with the examples of the documents |

Some promises are not kept on every input. For each there is an exact condition and an input that fails.

- The clamp's documented promise fails in three families of inputs, and
  `ClampTheorems.AnswerSufficesExactlyWhen` gives the condition for one answer.
- A drive that obeys every answer stays within the margin from most starts but not from all.
  `SharpBound.PassesExactlyWhen` says which, for every position and integer velocity, in terms that can be
  computed from the start. `ClosedLoop.NeverOvershoots` covers these starts up to the rounding of positions
  and velocities to integers, and also answers that take force later.
- So the gate on an early handoff can grant one from which an obedient drive passes the margin, even with the
  default settings (`MotionWitnesses.GateIsNotEnough`). `MotionSafety.HandoffPassesExactlyWhen` gives the
  exact condition, and `MotionSafety.GateSuffices` says how far from the waypoint the gate is enough: from 70
  units, seven micrometres, with the default settings (`MotionSafety.GateSufficesByDefault`).
- A pass and its mirror image decide the arrival test alike if and only if no wrapped prediction turns it
  (`ControllerRuns.MirrorReached`, `ControllerRuns.SymmetricAtShortIntervals`,
  `ControllerRuns.WrappedPredictionBreaksSymmetry`).
- A replaced list starts from its first command exactly under the condition of
  `Interleaving.ListStartsOverExactlyWhen`. While the core is between publishing the list and setting the
  reset bit, the drive can make any number of passes over the new list from where it stood in the old one
  (`Interleaving.ResetMayComeLate`, `Interleaving.LateResetIsReachable`).
- A client that holds write access and asks for it again while the drive is on is told that it is not granted,
  although it keeps it (`WriteAccess.HolderIsAnnounced`).
- Of the reset commands for the handheld, exactly the first since each reconnection arrives
  (`HidDelta.ResetArrivesOnce`).

## Model

| member | source | states |
|---|---|---|
| Messages.ApplyFields | src/messages.rs:38-65 | A partial update replaces exactly the given fields, and reports a change exactly when the command became another one. |
| Kinematics.PredictorsAreKinematics | src/drive.rs:619-644 | In the drive's units the two predictors are the laws of uniform acceleration, with an error below one unit for each truncating division. |
| ClampTheorems.NeededIsLeast | src/drive.rs:781-782 | The rounded-up quotient is the least deceleration that stops within the room. |
| ClampTheorems.ClampIsExact | src/drive.rs:733-783 | Outside recovery, for a moving drive with room left, the answer is the least integer at or above the request with v² ≤ 2·r·room, cut off at `i32::MAX`. |
| ClampTheorems.AnswerSufficesExactlyWhen | src/drive.rs:677-783 | The documented promise (the answer stops the drive before target + margin) holds if and only if the request was already enough, or the drive is neither exactly on the target nor beyond the margin and `i32::MAX` is enough. |
| ClampTheorems.ClampMonotoneInSpeed | src/drive.rs:720-783 | With a known direction a faster drive is never answered with a lower deceleration. |
| ClampTheorems.RecoveryScales | src/drive.rs:736-755 | Beyond the margin the answer never falls as the overshoot grows and stays between the two hard limits. |
| ClampTheorems.RecoveryEnds | src/drive.rs:736-755 | It is the smaller hard limit at the margin and the larger one from twice the margin on. |
| ClampTheorems.RecoveryIsLinear | src/drive.rs:693-755 | For a drive beyond the margin: margin·(answer − hard_min) is at most (hard_max − hard_min)·excess and less than margin + margin·(hard_max − hard_min)/1000 below it, which is the straight line from one hard limit to the other; from twice the margin on the answer is the larger limit. |
| ClampTheorems.ClampInRoom | src/drive.rs:720-783 | Otherwise the room to stop in is the margin less the overshoot beyond the target, the distance and margin before it when the request is enough for both, and else the distance alone; the answer is the request if that is enough for the room, and else the least deceleration that is. |
| ClampTheorems.ClampAtRest | src/drive.rs:772-774 | A drive at rest not beyond the margin is answered with the request. |
| ClampTheorems.ClampMirror | src/drive.rs:702-783 | Reflecting positions, velocity and direction leaves the answer as it is. |
| ClosedLoop.HeldStep | src/drive.rs:702-783 | One tick that obeys the energy bound keeps the drive able to be held within the bound, and the demanded deceleration does not rise while it moves. |
| ClosedLoop.NeverOvershoots | src/drive.rs:677-783 | In every run whose ticks lose at least the energy that the demanded deceleration takes, and that starts with v² ≤ 2·MAX·ahead + 2·requested·margin before the target, v² ≤ 2·MAX·(room left) behind it, or at rest within the margin (MAX is i32::MAX): the drive never passes target + margin, the demand never rises while it moves, and neither recovery nor the zero-budget escape is reached while it moves. |
| ClosedLoop.DelayedStep | src/drive.rs:699-701 | An answer that is still in force when a newer one is computed is no weaker than it, since the demand never rises. |
| ClosedLoop.DelayedNeverOvershoots | src/drive.rs:699-701 | The bound holds as well when each answer takes force any fixed number of samples later, provided that what is in force at the start is no weaker than the first answer. |
| SharpBound.PassesExactlyWhen | src/drive.rs:677-783 | For every configured leg, position and integer velocity: some run that obeys every demand passes target + margin if and only if the start satisfies the computable condition CanPass, which the starts of NeverOvershoots miss only by the rounding of positions and velocities to integers. |
| SharpBound.HeldCannotPass | src/drive.rs:677-783 | No start of NeverOvershoots satisfies that condition. |
| SharpBound.RunCannotPass | src/drive.rs:677-783 | No run from a start outside the condition ever reaches it. |
| SharpBound.ZeroBudgetEscapes | src/drive.rs:772-774 | From every start exactly on the target with v² ≥ 2·requested·(margin + 1), an obedient run passes the margin. |
| SharpBound.SaturationEscapes | src/drive.rs:781-782 | So it does from every saturated start from which i32::MAX leaves a speed w on the target with w² ≥ 2·requested·(margin + 1). |
| MachineArithmetic.ClampNeverOverflows | src/drive.rs:712-782 | With waypoints in [0, limit], limit + margin ≤ 2³¹, and 0 ≤ hard_min ≤ hard_max, no 64-bit operation of the clamp overflows for any i32 feedback, and the result is that of the integers. |
| MachineArithmetic.WideRangeOverflows | src/drive.rs:765-769 | The range is needed: i32 feedback alone does not keep the products within a u64. |
| MachineArithmetic.PredictorsNeverOverflow | src/drive.rs:619-644 | Nor does any operation of the predictors, over three ticks of at most 3 ms. |
| MachineArithmetic.SaturationIsHarmless | src/drive.rs:482-495 | The saturating test of the handoff gate decides what the unbounded inequality decides. |
| MachineArithmetic.GateNeverOverflows | src/drive.rs:443-495 | No operation of the gate overflows, and it decides as the unbounded one. |
| Controller.DriveActions.Send | src/drive.rs:41-45 | Action bits accumulate. |
| Controller.DriveActions.Take | src/drive.rs:47-50 | Taking returns every pending action and leaves none. |
| Controller.Connection.constructor | src/drive.rs:174-226 | A new connection asks for nothing and knows no list. |
| Controller.Connection.LoopTick | src/drive.rs:269-355 | One pass sends the request computed before, reports the index and state from before the actions are taken, takes all actions, copies the shared commands only if the lock is free, and computes the next request from the response just received. |
| Controller.Connection.ComputeNextRequest | src/drive.rs:357-593 | The method with its early returns computes the function `Computed` of the state and the response. |
| Controller.Connection.SelectCommand | src/drive.rs:410-551 | Bringing the index into the list, the arrival test, the advance and the choice of the waypoint to protect compute `Advanced` and `ClampGoal`. |
| Controller.Connection.ObserveArrival | src/drive.rs:442-514 | The approach flag is sticky and records this tick; the waypoint counts as reached exactly when one of the five documented conditions holds. |
| Controller.Connection.ComputeMotionCommand | src/drive.rs:553-590 | Paused, a stop clamped from the smaller hard limit; otherwise the current command with its deceleration clamped. |
| ControllerRuns.CommandIsNew | src/drive.rs:388-400 | A command is computed only for an enabled drive, and its number differs from the one the drive reported and follows it modulo 16. |
| ControllerRuns.CrossingIsWithinThreeTicks | src/drive.rs:457-466 | At constant speed a crossing is predicted if and only if the drive heads for the waypoint and 100000·distance ≤ speed·(3·interval), in raw units. |
| ControllerRuns.CrossingFollowsMotion | src/drive.rs:457-466 | With acceleration too, whenever the exact motion over three intervals ends two units or more past the waypoint a crossing is predicted, and never when it ends two units or more before it. |
| ControllerRuns.StopIsWithinThreeTicks | src/drive.rs:468-474 | A stop is predicted if and only if the drive decelerates and 100000·speed ≤ deceleration·(3·interval). |
| ControllerRuns.AcknowledgementStays | src/drive.rs:340-342 | Once the drive thread has taken an acknowledgement, every request carries it for as long as the drive reports the error. |
| ControllerRuns.NoPowerNoRequest | src/drive.rs:382-385 | Without power no pass asks for power or computes a command, whatever state the drive is in. |
| ControllerRuns.IndexStepsOnce | src/drive.rs:410-412 | Whatever list a pass meets, the index it moves the drive by is inside it, and is the one it started from (0 after a reset) or the next one around the list. |
| ControllerRuns.DirectionFollowsLeg | src/drive.rs:516-536 | In every state of a run over an unchanged list the stored direction is None or the sign of the current leg. |
| ControllerRuns.HandoffProtectsCompleted | src/drive.rs:516-551 | On the handoff tick the clamp protects the waypoint just completed, in the direction of the leg that led to it. |
| ControllerRuns.HandoffKeepsOldBound | src/drive.rs:538-551 | So does every later tick, until the drive is seen moving along the new leg or that leg is handed off in its turn. |
| ControllerRuns.ZeroDirectionIsUnknown | src/drive.rs:720-731 | To the clamp a direction of zero and an unknown direction are the same. |
| ControllerRuns.RestingTick | src/drive.rs:498-536 | With the drive at rest, motion enabled or not, a pass keeps the current command if and only if the drive has not been seen approaching it and is not on it; otherwise it steps to the next one. |
| ControllerRuns.StandstillSettles | src/drive.rs:442-536 | While the drive rests, the index advances at most once around the list, and with a waypoint away from the drive it comes to stay at such a one. |
| ControllerRuns.SettledStays | src/drive.rs:442-536 | Once there it never advances again while the drive rests. |
| ControllerRuns.PredictorsAreOdd | src/drive.rs:619-644 | The predictors commute with `wrapping_neg` for all inputs, because Rust's division truncates. |
| ControllerRuns.MirrorReached | src/drive.rs:442-514 | The arrival test decides the mirror image alike if and only if no prediction wraps to the smallest i32 in a way that decides it. |
| ControllerRuns.SymmetricAtShortIntervals | src/drive.rs:442-514 | With mirrorable i32 feedback and an interval of at most 3 ms that is: the position does not wrap, or the drive is on the waypoint, or the gate refuses, or the drive has approached and stands, moves away or is about to stop. |
| ControllerRuns.MirroredPass | src/drive.rs:442-590 | Exactly under that condition the mirror image of a pass hands off alike, and then it has the same next index, the mirrored goal and the mirrored command with the same deceleration. |
| ControllerRuns.WrappedPredictionBreaksSymmetry | src/drive.rs:634-635 | An i32 input whose wrapped prediction is decided differently in the mirror image. |
| ControllerLaws.SwitchOnExactlyWhen | src/drive.rs:357-385 | The next request asks to switch on exactly if power is enabled, the drive answered and is not "not ready", and it is ready to switch on or was asked before. |
| ControllerLaws.HomeExactlyWhen | src/drive.rs:357-378 | It asks for homing exactly from the first enabled state without a home on until homing reports that it has finished or the flags start over. |
| ControllerLaws.AcknowledgeExactlyWhen | src/drive.rs:340-378 | It acknowledges errors exactly from the action on until the flags start over. |
| ControllerLaws.ReadyDriveIsSwitchedOn | src/drive.rs:368-371 | A ready drive with power enabled is asked to switch on and nothing else: acknowledging and homing end there. |
| ControllerLaws.FlagsAreCleared | src/drive.rs:357-366 | Without a state, or with a drive that is not ready, no flag is set. |
| ControllerLaws.SwitchOnStays | src/drive.rs:357-385 | Over every run that keeps power, answers and a drive that is not "not ready", every request after the first ready state asks to switch on. |
| ControllerLaws.HomeStays | src/drive.rs:372-378 | Over every run in which homing does not finish and the flags do not start over, every request after the first unhomed state asks for homing. |
| ControllerLaws.HomingEnds | src/drive.rs:372-378 | Once cleared, the request for homing stays away until the drive is unhomed again. |
| ControllerLaws.CommandExactlyWhen | src/drive.rs:382-408 | A command is computed exactly for an enabled, homed drive with power that reports its demand position, velocity and acceleration. |
| ControllerLaws.CommandOfPass | src/drive.rs:401-408 | It is a stop with the smaller hard limit for an empty list, a stop while motion is off, and else a motion to the position, at the velocity and acceleration, of the list entry at the index that the pass leaves. |
| ControllerLaws.ProtectedWaypoint | src/drive.rs:502-590 | Its deceleration is the clamp's answer for one waypoint: on a handoff the one just completed, whatever the next leg is; afterwards the same one until the drive is seen moving along the new leg; else the current one. |
| ControllerLaws.DirectionOfLeg | src/drive.rs:516-534 | The direction of a leg is up, down or, without length, unknown. |
| ControllerLaws.ReachedExactlyWhen | src/drive.rs:442-514 | A waypoint counts as reached exactly if the drive is on it; or has approached and stands, turned away or stops within three intervals; or crosses it within them and a full-force stop ends inside the margin. |
| ControllerLaws.SteadyArrival | src/drive.rs:442-514 | The same at constant speed, with the crossing as 100000·distance ≤ speed·(3·interval). |
| ControllerLaws.HandsOffExactlyWhen | src/drive.rs:410-536 | A pass steps to the next command around the list, forgets the approach and takes the direction of the new leg exactly then; otherwise it keeps index and direction and records an approach. |
| ControllerLaws.FeedbackExactly | src/drive.rs:281-328 | The core is told of complete responses only, and exactly when it is told that the drive is off, in error, moving or paused, with index and positions. |
| MotionSafety.ApproachNeverOvershoots | src/drive.rs:269-593 | Over the controller's own passes: until the waypoint counts as reached, a drive that obeys the commands in force stays within the margin of the waypoint it approaches, however many passes a command is on its way. |
| MotionSafety.HandoffNeverOvershoots | src/drive.rs:516-593 | From a handoff on, and until the new leg has been approached or handed off, such a drive stays within the margin of the waypoint just completed. |
| MotionSafety.HandoffPassesExactlyWhen | src/drive.rs:516-583 | At a handoff, some obedient run passes the margin of the completed waypoint if and only if velocity, distance ahead, next deceleration and settings satisfy CanPass. |
| MotionSafety.GateSuffices | src/drive.rs:476-497 | A handoff that the program's gate grants starts well whenever (hard_max − next deceleration)·margin ≤ (i32::MAX − hard_max)·ahead. |
| MotionSafety.GateSufficesByDefault | src/main.rs:45-56 | With the default settings that is from 70 position units before the waypoint, for every deceleration that the core publishes. |
| MotionSafety.ApproachContinues | src/drive.rs:410-593 | A pass that goes on approaching works on the same leg, so that obeying continues the journey. |
| MotionSafety.AwaitContinues | src/drive.rs:538-593 | So does one that goes on awaiting the new leg. |
| MotionSafety.HandoffContinues | src/drive.rs:516-593 | A handoff that finds the drive moving, standing or turning back continues the journey if the next command's deceleration lets it be held and what is in force is no weaker than the answer. |
| MotionSafety.NewLegContinues | src/drive.rs:442-593 | So does the first pass that sees the drive move along the new leg, for the new waypoint and its command. |
| MotionSafety.JourneyStaysWithin | src/drive.rs:269-593 | Over any number of legs and from rest, approach, handoff, next approach and so on: if each leg starts well and is obeyed until the next one starts, every pass finds the drive within the margin of the waypoint that it protects. |
| MotionWitnesses.AJourney | src/drive.rs:357-593 | Such a journey: from rest over an approach, an early handoff, rest behind the waypoint and the next approach. |
| MotionWitnesses.GateIsNotEnough | src/drive.rs:476-497 | With the default settings, a handoff that the gate grants one unit before the waypoint, from a good approach, after which a drive that obeys every command in force ends beyond the margin. |
| MotionWitnesses.AnApproach | src/drive.rs:357-593 | The premises of ApproachNeverOvershoots can be met, by a drive that slows down on its way. |
| MotionWitnesses.AHandoff | src/drive.rs:457-536 | Those of HandoffNeverOvershoots can be met, by a drive that is handed off early and stops behind the waypoint. |
| MotionSafety.PassNeverOverflows | src/drive.rs:442-590 | With a configured list and loop interval no operation of a pass (predictors, gate, leg directions, the clamp with motion enabled or paused) overflows, whatever i32 feedback arrives. |
| Core.CoreManager.HandleCoreEvent | src/main.rs:211-266 | Every event's effect on private state, shared commands, action bits and messages sent is that of `HandleEvent`. |
| Core.CoreManager.HandleClientMessage | src/main.rs:268-555 | The same for every message of a controller, with `HandleMessage`. |
| Core.CoreManager.RequestAccess | src/main.rs:270-297 | Access is granted while the drive is off, while nobody holds it, and always to the handheld; a change of holder is announced to all. |
| Core.CoreManager.ReleaseAccess | src/main.rs:298-312 | Only the holder releases access, and the release is announced. |
| Core.CoreManager.GetSet | src/main.rs:316-333 | The active set, a saved set, or not found. |
| Core.CoreManager.UpsertSaved | src/main.rs:334-350 | A saved set is replaced under its next version if the base version matches, or created with version 1; anyone may. |
| Core.CoreManager.ReplaceActive | src/main.rs:351-379 | The active set is replaced only by the writer and only if the base version matches; it is published, the index is reset and the change announced. The same code deletes it (src/main.rs:435-463). |
| Core.CoreManager.Update | src/main.rs:381-415 | A partial update in range bumps, publishes and announces only if the command changed. |
| Core.CoreManager.DeleteSaved | src/main.rs:416-434 | A saved set is removed if the base version matches. |
| Core.CoreManager.Power | src/main.rs:482-497 | Only the writer switches the power; off also disables motion. |
| Core.CoreManager.Motion | src/main.rs:498-534 | Only the writer, and only in the right reported state, changes motion; start and stop reset the index. |
| Core.CoreManager.Acknowledge | src/main.rs:535-553 | Only the writer acknowledges, and only an error. |
| Core.CoreManager.SyncCommandsToDrive | src/main.rs:557-568 | The published version is the active one, and the shared list its pointwise clamp. |
| WriteAccess.WriterStep | src/main.rs:219-312 | The writer loses access in exactly these cases: it disconnects or releases it, the handheld asks for it, or anyone asks while the drive is off. |
| WriteAccess.WriterKeepsAccess | src/main.rs:219-312 | Over every run without such an event the writer stays the writer. |
| WriteAccess.AccessIsAskedFor | src/main.rs:270-297 | Nobody becomes the writer without asking, and only in the states that allow it. |
| WriteAccess.HolderIsAnnounced | src/main.rs:219-312 | Every change of the holder is announced to all with the new and the previous one, and nothing else is; a request is granted exactly if nobody holds access, the drive is off or the handheld asks, and is answered with the holder afterwards. |
| WriteAccess.StateIsTold | src/main.rs:215-256 | Whoever connects or asks is told the core's state, and feedback of the drive is taken over and told to all. |
| WriteAccess.FirstComes | src/main.rs:268-298 | From the start, whoever asks first gets access; before any feedback no other client does. The active set is empty at version 0 and there are no saved sets. |
| WriteAccess.SetIsRead | src/main.rs:316-333 | Whoever asks for a command set is sent its version and list, or told that there is none of that name. |
| WriteAccess.EveryMessageIsAnswered | src/main.rs:268-555 | Every message is answered once and last, to its sender under its number; all else goes to every controller; a failure changes nothing. |
| WriteAccess.OthersAreRefused | src/main.rs:268-555 | The messages that only the writer may send are refused for that reason to everyone else, and nothing else is. |
| WriteAccess.UpdateExactly | src/main.rs:381-415 | A change of one command replaces exactly its given fields and no other command, is announced exactly if the command became another one, and is refused exactly if there is no such command. |
| WriteAccess.ConditionalStore | src/main.rs:334-350 | A saved set is stored exactly if it is new or the base version, if given, is its version; it then has the next version, 1 if new. Otherwise nothing changes and its version is answered. |
| WriteAccess.ConditionalDelete | src/main.rs:416-434 | Likewise deleted, and not found if there is none. |
| WriteAccess.StoredSetIsReadBack | src/main.rs:316-350 | After a successful upsert of a saved set, and whatever is done to other sets since, everyone who asks is sent the version that was answered and the list that was stored, and the listing has it under that version and names just the sets there are. |
| WriteAccess.SavedSetStep | src/main.rs:334-350 | A saved set disappears exactly with a delete message whose base version is not stale, and otherwise keeps its version and list or takes the next version. |
| WriteAccess.SavedVersionDenotesOneList | src/main.rs:334-350 | As long as no delete takes effect, the version of a saved set never falls and denotes one list. |
| WriteAccess.VersionsArePositive | src/main.rs:334-350 | No saved set ever has version 0. |
| WriteAccess.DeletedSetStartsAgain | src/main.rs:347 | Across a deletion the numbers start again: whatever version and list a set has, the same version can come to denote any other list. |
| Replicas.VersionStep | src/main.rs:334-464 | An event either leaves version and list alone and announces nothing, or raises the version by one, publishes it and announces it to all, with an update that leads from the old list to the new or with none. |
| Replicas.AnnouncedVersionsCountUp | src/main.rs:334-464 | Over every run the announced versions count up by one, and the published version is the active one. |
| Replicas.VersionDenotesOneList | src/main.rs:334-464 | As long as the version stays, the list does. |
| Replicas.ConditionalReplace | src/main.rs:351-379 | A replacement on the condition of a version read earlier is accepted exactly if the sender is the writer and nothing has been announced since. |
| Replicas.ReplicaStaysConsistent | src/main.rs:334-464 | A copy that follows the messages sent to its owner has the core's version after every run, and it is the core's list exactly if no change was a whole replacement or the list has been fetched since the last one. |
| Replicas.UpdatesSuffice | src/main.rs:381-397 | While every change announced carries an update, the copy is the core's set without any fetch. |
| Replicas.FetchRestores | src/main.rs:329-332 | Fetching the active set restores any copy. |
| Interleaving.UndisturbedSteps | src/main.rs:211-266 | The atomic steps of the interleaving model, run undisturbed, are one core event and one pass of the drive loop as the objects do them. |
| Interleaving.InvariantStep | src/main.rs:557-568 | Every step of either thread keeps the invariant below. |
| Interleaving.LimitsHold | src/main.rs:557-568 | Over every interleaving, with failed locks, lists that shrink and lost connections, the shared list is the pointwise clamp of the active one, every motion sent is within the limits and taken from an entry of the drive's current list, and power is not asked for while the copied power flag is off. |
| Interleaving.OnlyTheWriterActs | src/main.rs:219-237 | Shared commands and action bits change only through a message of the controller that held access when it arrived, or are switched off by its disconnection. |
| Interleaving.PendingUntilTaken | src/drive.rs:41-50 | An action bit stays set until the drive takes it, whatever the core sets meanwhile. |
| Interleaving.ResetBeforeTake | src/main.rs:351-357 | When the core sets the index reset that goes with a new list before the drive takes the actions of a pass, the drive computes that pass from the start of the list, over every interleaving. |
| Interleaving.ListStartsOverExactlyWhen | src/main.rs:351-357 | While the core is about to set the reset, the pass that the drive is in starts over if and only if a reset was pending, the drive stood at the start, or the core's step (or a new connection) comes before the take. |
| Interleaving.ResetAfterTake | src/drive.rs:332-349 | A reset set between the drive taking the actions and trying the lock misses that pass: the drive gets the new list and is otherwise as it was, and the bit waits. |
| Interleaving.ResetMayComeLate | src/main.rs:355-357 | For every number of passes: the drive can make that many over the new list, from its old index and direction, before the core sets the reset. |
| Interleaving.LateResetIsReachable | src/main.rs:355-357 | Such a state is reachable from the start, with the drive at index 1 of the old list. |
| Interleaving.WriterLossStopsDrive | src/main.rs:219-237 | After the writer disconnects, once the drive next gets the lock, no request asks for power or motion until a later writer switches the power on. |
| OperatorControl.MotionMessage | src/main.rs:498-534 | The writer's motion message, in a drive state that allows it: Start and Resume enable motion, Pause and Stop disable it, Start and Stop also reset the index, and nothing else changes. Otherwise nothing does. |
| OperatorControl.PowerMessage | src/main.rs:482-497 | The writer's power message sets the flag asked for; off also disables motion, on never enables it, and no action is set. |
| OperatorControl.AcknowledgeMessage | src/main.rs:535-553 | An acknowledgement sets just its action bit, for the writer and in the error state only. |
| OperatorControl.ChangesArePublished | src/main.rs:557-568 | Every change of the active list is published, each value as it is if within 0 and its limit and else the nearer of the two. |
| OperatorControl.ReplacementResets | src/main.rs:351-441 | A new or deleted active list starts from its first command. |
| OperatorControl.UpdateKeepsIndex | src/main.rs:381-415 | A change of one command does not reset the index. |
| OperatorControl.PauseHoldsDrive | src/main.rs:515-521 | After an accepted Pause or Stop, over every interleaving in which no later message starts or resumes, whatever is done to power, list and connection, once the drive has next got the lock no pass computes a motion. |
| OperatorControl.StartMovesDrive | src/main.rs:515-521 | After an accepted Start or Resume, over every interleaving in which no later message halts or switches power off, the writer stays connected and the drive thread does not start over, once the drive has next got the lock every pass with power, a list and a drive ready to be moved computes a motion. |
| EndToEnd.EveryRequestArrives | src/drive.rs:269-280 | Over every interleaving the request about to be sent encodes into the 64-byte buffer, the drive decodes it, it says just the flags, number and command that the thread means, the motion read is within the limits, and it is asked to switch on only if power was enabled when last fetched. |
| EndToEnd.FeedbackArrives | src/drive.rs:281-299 | The controller computes from the state, positions, velocity and acceleration that the drive encoded in its response. |
| EndToEnd.FeedbackNeedsAll | src/drive.rs:281-328 | The core gets feedback exactly from responses with state, both positions, current, warnings, error code and monitoring channel. |
| EndToEnd.FeedbackIsI32 | src/drive.rs:389-398 | Whatever bytes arrive, a response that can be read gives the controller i32 values. |
| EndToEnd.NoBytesOverflow | src/drive.rs:357-593 | So over a configured list no bytes from the drive make the predictors, the gate or the clamps of a pass overflow. |
| HidUi.UiManager.ProcessCoreMessage | src/hid/ui_manager.rs:86-101 | On connection the screen is sent and the cache of sent variables forgotten. |
| HidUi.UiManager.ProcessInputReport | src/hid/ui_manager.rs:103-493 | A report without write access takes it and publishes the own commands; otherwise the movements in order, then the events, lead to the messages, the new commands and the variables sent. |
| HidUi.UiManager.TurnOne | src/hid/ui_manager.rs:129-300 | One encoder's movement changes commands and messages as `Turn` says. |
| HidUi.UiManager.TurnStroke | src/hid/ui_manager.rs:136-230 | One end moves, and the other is pushed, or taken along while the start is held. |
| HidUi.UiManager.ReactOne | src/hid/ui_manager.rs:302-349 | One button event changes commands, hold state and messages as `React` says. |
| HidUi.UiManager.SendChanged | src/hid/ui_manager.rs:475-490 | In order, the entries that differ from the last one sent under their key are sent in one report and remembered. |
| HidMirror.HandleInputReport | src/main.rs:257-264 | The core handles the messages of a report one after the other, with all their effects on its state, the shared commands, the action bits and the messages sent. |
| HidMirror.MirrorHolds | src/hid/ui_manager.rs:103-349 | Over every run in which only the reports speak for the handheld, at each event boundary where it holds access the core's active list is its manager's two commands. |
| HidMirror.StrokeStaysOrdered | src/hid/ui_manager.rs:129-335 | Over every run 0 ≤ start ≤ end ≤ limit. |
| HidMirror.HeldTurnShiftsStroke | src/hid/ui_manager.rs:136-230 | A turn while the start is held never lengthens the stroke, and keeps it if and only if neither end clamps or there is no stroke. |
| HidMirror.ScalingFits | src/hid/ui_manager.rs:129-300 | The quadratic and cubic scalings stay within an i32 at each multiplication. |
| HidControls.StartKnob | src/hid/ui_manager.rs:136-181 | Encoder 0 moves the start by 10000·δ² in the direction of δ, kept from 0 to the limit; the end moves by as much while the start is held and is else pushed along; nothing else changes. |
| HidControls.EndKnob | src/hid/ui_manager.rs:182-227 | Encoder 1 moves the end in the same way, and the start along or before it. |
| HidControls.VelocityKnob | src/hid/ui_manager.rs:228-260 | Encoder 2 moves the velocity of both commands by 10000·δ² from that of the first, and nothing else. |
| HidControls.AccelerationKnob | src/hid/ui_manager.rs:261-297 | Encoder 3 moves the acceleration of both by 1000·abs(δ³) from that of the first, and the deceleration with it up to its limit. |
| HidControls.KnobsTurnTheRightWay | src/hid/ui_manager.rs:129-300 | Such a movement never goes against the knob, and moves the value unless it is at its end already. |
| HidControls.PowerButton | src/hid/ui_manager.rs:302-322 | A click on encoder 0 switches power on when the drive is off, power and motion off when it is preparing, paused or moving, and sets the acknowledgement in the error state; nothing else of the core or the shared state changes. |
| HidControls.PauseButton | src/hid/ui_manager.rs:302-349 | A click on encoder 1 resumes a paused drive and pauses a moving one without resetting its index. |
| HidControls.ZeroButton | src/hid/ui_manager.rs:302-349 | A click on encoder 3 makes both commands and the active set rest at zero, at 1 m/s and 0.5 m/s², from the first command on. |
| HidControls.OtherButtons | src/hid/ui_manager.rs:302-349 | Holding encoder 0 holds the start, a click on encoder 2 resets the handheld, and no other event does anything. |
| HidWire.EncodeEntry | src/hid.rs:300-339 | An entry in range is written at the offset and nothing else changes; one out of range is refused and nothing is written. |
| HidWire.EntryRoundTrip | docs/hid_protocol.md:205-295 | The firmware decodes an entry, whatever follows, and knows how long it was. |
| HidWire.CountBound | src/hid.rs:291-298 | A report carries at most 31 entries. |
| HidWire.ReportRoundTrip | src/hid.rs:247-289 | The firmware reads from a report just the entries put in it. |
| HidWire.SendVariableUpdates | src/hid.rs:247-289 | The loop writes the greedy packing, and fails exactly if some entry cannot be sent, the reports written by then being the first of those of the entries before it. |
| HidWire.PackKeepsEntries | src/hid.rs:247-289 | The packing keeps every entry in order, and each group fits a report. |
| HidWire.PackIsOptimal | src/hid.rs:264-273 | No split that keeps the order takes fewer reports. |
| HidDelta.KeysAreSlots | src/hid/ui_manager.rs:497-510 | The cache has one key for each slot of the firmware. |
| HidDelta.DeltasEqualFullUpdates | src/hid/ui_manager.rs:475-490 | Over every run of updates and reconnections, including updates that cannot be sent and break the connection, whenever it stands the handheld that is sent only the changes, filtered, packed, encoded and decoded, holds in every slot but that of the reset command what it would if everything were sent each time, and the cache agrees with it. |
| HidDelta.RepeatedUpdateIsSilent | src/hid/ui_manager.rs:475-490 | A display that shows the same as before, each slot once, sends nothing. |
| HidDelta.CacheRemembersReset | src/hid/ui_manager.rs:475-490 | The cache holds the reset command exactly if some update since the last reconnection held it. |
| HidDelta.ResetArrivesOnce | src/hid/ui_manager.rs:324-325 | After any run, an update brings the reset command to the handheld if and only if it holds the command and no update since the last reconnection did. |
| HidScreen.EncodeScreen | src/hid.rs:191-245 | The encoder produces the payload, or refuses more than 255 lines or items or an item out of range. |
| HidScreen.SendScreenUpdate | src/hid.rs:162-189 | It sends the fragments of the payload in order, or nothing if there are more than 255. |
| HidScreen.ScreenRoundTrip | docs/hid_protocol.md:153-203 | The encoding is self-delimiting: whatever follows, the firmware reads the screen back. |
| HidScreen.FragmentsReassemble | docs/hid_protocol.md:121-150 | In whatever order the fragments arrive and however often they are repeated, the firmware gets the payload followed by fewer than 60 zeros, and the screen that was sent. |
| HidInput.ReadInputReport | src/hid.rs:343-384 | Nothing, malformed, or the report with its known events, for every delivery of at most 64 bytes. |
| HidInput.InputRoundTrip | docs/hid_protocol.md:341-414 | A report as the firmware encodes it is read back as it was meant. |
| LinUdp.I32RoundTrip | linmot/src/udp/writer.rs:74-77 | Four little-endian bytes bring back every i32. |
| LinUdp.Writer.WriteBytes | linmot/src/udp/writer.rs:44-56 | All of the bytes are appended, or an overflow error and nothing. |
| LinUdp.Writer.WriteWords | linmot/src/mci/commands.rs:90-161 | The parameters are appended in order, or an overflow error if they do not all fit. |
| LinUdp.Writer.WriteMotion | linmot/src/mci.rs:293-317 | A motion command is a block of 32 bytes; too many parameters are never reported. |
| LinUdp.Writer.WriteRealtime | linmot/src/udp.rs:155-165 | The realtime configuration is a block of 8 bytes. |
| LinUdp.CommandRecovered | linmot/src/mci/commands.rs:71-161 | Identifier and parameters determine the command, for all fourteen commands. |
| LinUdp.MotionRoundTrip | linmot/src/mci.rs:293-317 | The drive recovers number and command from the block. |
| LinUdp.RequestLength | linmot/src/udp.rs:63-85 | A request is 8 bytes and 2, 32 and 8 for the parts present. |
| LinUdp.RequestRoundTrip | linmot/src/udp.rs:46-85 | The drive recovers every request whose number is at most 15. |
| LinUdp.ToWire | linmot/src/udp.rs:67-85 | Writing fails exactly if the buffer is too small, and only with an overflow. |
| LinUdp.Reader.ReadBytes | linmot/src/udp/reader.rs:32-41 | The next bytes, or an underflow error and an unmoved cursor. |
| LinUdp.Reader.ReadOpt | linmot/src/udp.rs:139-145 | A field only if it is announced. |
| LinUdp.FromWire | linmot/src/udp.rs:113-137 | Reading succeeds exactly if the buffer holds every announced field; the realtime configuration counts only if the request had it. |
| LinUdp.ResponseRoundTrip | linmot/src/udp.rs:87-146 | Reading inverts the drive's encoder, whatever follows in the buffer. |
| WireExamples.EntryLayout | docs/hid_protocol.md:205-295 | An entry begins with its type in bits 6 and 5 above its index; then decimals and the value in two's complement, the text and a zero, or the value of the hardware parameter. |
| WireExamples.SteadyStateReport | docs/hid_protocol.md:309-318 | The document's example of a report, byte by byte. |
| WireExamples.MixedReport | src/hid.rs:575-597 | A report with an entry of every kind, byte by byte. |
| WireExamples.AreaLayout | docs/hid_protocol.md:153-203 | A display's area: type, margin, title and counted lines or items, then animation, duration and delay, little-endian. |
| WireExamples.ScreenLayout | docs/hid_protocol.md:153-203 | A screen: the labels, primary before secondary, in encoder order, then the left area before the right one. |
| WireExamples.FragmentLayout | docs/hid_protocol.md:126-135 | A fragment begins with report number, screen, how many there are and which it is; its 60 bytes are those of the payload at that place, then zeros. |
| WireExamples.InputExamples | src/hid.rs:632-703 | Input reports byte by byte, with movements, clicks and menu events, and malformed ones. |
| WireExamples.EventTypes | src/hid.rs:343-384 | The six event types by number, menu events with display above item; others are ignored. |
| WireExamples.GoToExample | linmot/src/mci.rs:324-350 | The example of the LinUDP documentation, byte by byte. |
| WireExamples.MotionHeader | linmot/src/mci/commands.rs:71-89 | The first two bytes of each of the fourteen commands, with the number in the low four bits. |
| WireExamples.MotionParameters | linmot/src/mci/commands.rs:90-161 | Target, velocity, acceleration and deceleration follow in this order; for a stop the deceleration. |
| WireExamples.ControlWord | linmot/src/mci.rs:8-27 | Switching on is bit 0, the acknowledgement bit 7, homing bit 11, and no other bit is set. |
| WireExamples.RequestLayout | linmot/src/udp.rs:18-85 | A request begins with the bits of its parts and of the wanted fields, then control word and motion. |
| WireExamples.ResponseLayout | linmot/src/udp.rs:24-146 | Where each field of a full response is: status, state, two positions, current, warnings, error and four monitored values. |

## Left out

- Sockets, HID device access, threads, priorities, sleeping, retries and metrics: input and output. A failed request ends the connection, and the model then starts a new one.
- JSON forms, formatting, unit conversions in floating point, the LED-ring scaling and the display texts: the display entries are a parameter of the handheld's manager.
- The command-line tools and the tables of error codes and warnings.
- Temperatures, current, warnings and error texts in the state that the core reports; drive states that the controller does not look at are taken together.
- Receiving an input report while another event is handled: the core handles one event at a time, and so does the model. In Interleaving the messages of a report are separate events from the handheld, which allows more interleavings than the program has; the messages of one event are sent in one step.
- Version numbers are unbounded here; the program has 64 bits.
- A send to a controller that fails ends the program; the model's sends succeed.
- In-place changes of a vector's element, and of the handheld's pair of commands, are updates of a sequence held in a field. Bit sets are sets, and shifts and disjoint bit fields are multiplication and addition.
- The two branches for the ends of the stroke (src/hid/ui_manager.rs:136-230) are one method with an index.
- ClosedLoop.NeverOvershoots: the request is fixed during a run, since the room the clamp works with depends on it, and the drive is taken to lose the energy that the deceleration in force takes over each step; speeding up is outside a run and ends with a new start.
- MotionSafety.HandoffNeverOvershoots: starts from a handoff from which the drive can be held, and from commands in force no weaker than its answer; MotionWitnesses.GateIsNotEnough shows that the program grants others.
- SharpBound.PassesExactlyWhen: is about answers that take force at once; for later ones the bound of ClosedLoop.DelayedNeverOvershoots is sufficient.
- HidDelta: what the handheld receives between a send that fails and the next reconnection is left open; the model takes it as part of what is found then.
- ControllerRuns.MirroredPass: the waypoint has to have a mirror image, that is, not to be the smallest i32.
- HidScreen.FragmentsReassemble: does not model a lost fragment; the program does not send a screen again when the handheld reports another one as active, although the protocol document describes it (docs/hid_protocol.md:148-150).
- Kinematics works on unbounded integers; MachineArithmetic adds the casts and checks, for decelerations that are not negative and hard limits in order, as the configuration in src/main.rs:113-118 yields from a non-negative limit. Limits are not negative either: `clamp` panics otherwise.
- Where the documents and the code differ the model follows the code: a disconnected writer's power is switched off too (docs/design.md:134-135 and 168 speak of pausing motion), a release is answered with an acknowledgement (docs/websocket_protocol.md:263), up to 255 lines or items are encoded (docs/hid_protocol.md gives 6 and 63), and a pause does not always keep the active command (docs/websocket_protocol.md:76-78, see `ControllerRuns.RestingTick`).

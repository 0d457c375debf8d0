# A rover's command protocol, tracking order and frame algebra, verified

A control centre sends commands to a rover over MQTT and tracks their acknowledgements; on the rover, ROS 2 nodes run visual
tracking, move odometry between frames, feed it to the autopilot and steer. This project models the parts of that system whose
guarantees need more than one function to explain, and proves them with Dafny: `dafny verify dfyconfig.toml` checks everything.

Five groups of modules:

- **Command and acknowledgement protocol.** `Commands` (messages), `Gateway` (sending), `Tracking` and `TrackerHistory` (the control
  centre's tracker), `Rover` (the rover as steps of its two threads and its action callbacks), `Telemetry` (the same rover as the
  object it is), `Dedup`, `Handoff`, `AckGrammar`, `LateCopies`, `Goals`, `Answers`, `ModeProcesses`, `Orders`, `RoverRuns`
  (properties of every run of the rover), `CommandSystem` (both sides with a network that loses, repeats, delays and reorders)
  and `Results` (from what the operator sent to what the rover did and what the control centre shows).
- **Order of IMU samples and frames.** `ImuOrdering`, `ImuQueue`, `ImuFrames`, `ImuExactlyOnce`, `CuvslamNodes`: a queue and three time
  stamps; whether a call into the tracker throws is an input.
- **Frame algebra over the reals.** `Quaternion`, `RigidBody` (poses), `FrameConversion` (ENU/FLU and NED/FRD), `Reexpression`
  (sensor frame to base frame), `MountCache` (which mount a transform cache holds), `Covariance`, `OdomRelay`, `CuvslamLatch`,
  `VehicleOdom`, `AutopilotLoop`. The square root of one half is any `s` with `s * s == 0.5`.
- **Time.** `RateGate` (the greedy gate three nodes share), `VisionOdom` (gate, publish timer and watchdog), `SlidingWindow`.
- **Heading and mode names.** `Heading` (an integrator with wrap-around), `ModeAnnounce` (print and parse).

A method of a class is proved against a function of its old state, and the theorems are about runs of that function. A run is a
sequence of events; an event that is not enabled changes nothing, so the theorems hold for every sequence. Time is in integer
nanoseconds.

## Where the code does not keep the promise

The lemmas named below show the runs concerned and say when the promise does hold, for most of them exactly.

- Dedup ages are cut off to whole seconds, so two admissions of one id are at least 31 s apart with the default limit of 30 s. A
  copy that arrives after that is executed again and can get a contradicting final acknowledgement
  (`LateCopies.LateCopyTwoFinals`); ids are admitted once and the acknowledgement grammar holds exactly if no copy is heard after
  such a sweep (`Dedup.AdmittedOnceExactly`, `LateCopies.GrammarExactly`).
- The vision node replaces the pose by the autopilot's but sends the message's twist as it is. The odometry node then moves the
  twist by the mount, so if the autopilot repeats what it is sent, a turning rover comes back with a sideways velocity (`AutopilotLoop.TurningOnTheSpotDrifts`,
  `AutopilotLoop.OdometryReturnsExactly`; the mount is in
  src/description_robot/models/ackermann_rover/ackermann_rover_custom.urdf:34-36).
- After a timeout the history says FAILED for good, whatever the rover does or says
  (`CommandSystem.TimeoutDisagrees`, `CommandSystem.Agreement`).
- A frame stamped zero counts as "no frame yet", so the frame after it is not checked and the samples after it are discarded
  (`CuvslamNodes.ZeroStampedTwice`, `ImuOrdering.OrderWithoutThrows`, `ImuExactlyOnce.NothingAfterZero`).
- A frame that makes `Track` throw has already used up its samples. An older frame that then succeeds is out of order and its
  interval holds a sample that is not in it (`CuvslamNodes.OlderFrameAfterThrow`, `ImuOrdering.OrderExactly`,
  `ImuExactlyOnce.ExactlyOnceIff`).
- In the stereo node a registration that throws drops the rest of the interval's samples from this frame; in the RGB-D node it does
  not. The two forms agree exactly if no registration throws with samples still to come (`ImuExactlyOnce.FormsAgree`).
- The relay latches its origin with the identity mount while no transform is known; once the transform comes, every output is
  shifted by the mount (`OdomRelay.LateMountShifts`).
- The gate starts from time zero, which can cost the first message (`RateGate.ZeroStartCostsOne`); the staleness bound of 5 s plus
  the watchdog period is reached (`VisionOdom.StalenessBoundReached`).
- Announced mode ids of 128 to 255 are stored as negative bytes: the mode cannot be selected afterwards
  (`ModeAnnounce.SelectableAfterAnnounce`).
- The comments in both cuVSLAM nodes speak of an output in ROS axes; the latched origin cancels the change of axes, so the output is
  the motion in the optical axes of the first estimate (`CuvslamLatch.StereoPublishesMotion`).
- The goal handle is stored when the action server answers, so two goals requested in one batch are both sent. When the first one
  ends, the rover forgets the one still running and refuses to cancel it (`Goals.CancelRefusedWhileRunning`,
  `Goals.CancelRefusedExactly`, `Goals.SingleGoalExactly`).
- The heading setpoint is outside its range after activation with a heading outside it, until the first live cycle
  (`Heading.InRangeExactly`).

## Model

| member | source | states |
|---|---|---|
| Commands.TerminalIsFinal | control_center/cc/ack_tracker.py:130-135 | for every command name and status number, the tracker's terminal test is true exactly on what the rover's handler for that command sends last |
| Rover.HandleConforms | src/rover_monitor/src/telemetry_publisher.cpp:379-998 | every handler, in every state, either sends its final acknowledgement at once, or starts an action of one of the two two-stage commands (after ACCEPTED for a cancel, silently for a goal), or is the silent drive handler |
| Dedup.AdmissionsApart | src/rover_monitor/src/telemetry_publisher.cpp:168-182 | in every run, with sweeps anywhere, two admissions of one id are at least the eviction limit plus one second apart |
| Dedup.TableAfterSweep | src/rover_monitor/src/telemetry_publisher.cpp:168-182 | after each sweep the table holds exactly the admitted ids whose truncated age is within the limit, with the time of their last admission |
| Dedup.AdmittedOnceExactly | src/rover_monitor/src/telemetry_publisher.cpp:168-182 | in a run every id is admitted at most once if and only if no copy of a command is heard after a sweep that came the limit plus one second or more after an earlier copy |
| Dedup.PromptCopiesSuffice | src/rover_monitor/src/telemetry_publisher.cpp:168-182 | if all copies of a command arrive within the eviction limit plus one second of each other, no copy is late |
| Handoff.FirstInFirstOut | src/rover_monitor/src/telemetry_publisher.cpp:184-207 | in every run the dispatched commands are a prefix of the admitted ones, everything else admitted is in the pipeline in order, both queues carry the same commands, and RECEIVED goes out once for each admission, in order and never behind the dispatch |
| Handoff.ReceivedFirst | src/rover_monitor/src/telemetry_publisher.cpp:356-365 | in every run each acknowledgement of a handler or callback is preceded by a RECEIVED of the same command, and so is every outstanding callback |
| AckGrammar.Grammar | src/rover_monitor/src/telemetry_publisher.cpp:329-998 | in every run without such a late copy, the acknowledgements of an admitted command are RECEIVED, then only for nav_goal and cancel_goal perhaps ACCEPTED, then at most one final one |
| AckGrammar.DispatchedIsAnswered | src/rover_monitor/src/telemetry_publisher.cpp:379-998 | a dispatched command without outstanding callbacks has its final acknowledgement, unless it is a drive command |
| AckGrammar.OnlyAdmittedAcked | src/rover_monitor/src/telemetry_publisher.cpp:1047-1071 | every acknowledgement carries the id and the number of an admitted command |
| AckGrammar.OneFinalAck | src/rover_monitor/src/telemetry_publisher.cpp:379-998 | two final acknowledgements of one command are the same acknowledgement |
| LateCopies.GrammarExactly | src/rover_monitor/src/telemetry_publisher.cpp:329-377 | once nothing waits for its RECEIVED, all admitted commands have the grammar if and only if no copy is heard after such a sweep |
| LateCopies.LateCopyTwoFinals | src/rover_monitor/src/telemetry_publisher.cpp:752-859 | a registration whose fork fails, copied 31 s and a sweep later when it succeeds, gets FAILED and then ACCEPTED |
| Goals.CancelsOnlyRunning | src/rover_monitor/src/telemetry_publisher.cpp:933-955 | in every run the goal the rover would cancel is one whose result is outstanding |
| Goals.SingleGoalExactly | src/rover_monitor/src/telemetry_publisher.cpp:499-564 | never more than one goal is in flight if and only if no goal is requested while another request is unanswered; and then a goal is remembered exactly while it runs |
| Goals.CancelRefusedWhileRunning | src/rover_monitor/src/telemetry_publisher.cpp:615-624 | after two early requests and the first result, a goal runs that the rover refuses to cancel |
| Goals.RememberedExactly | src/rover_monitor/src/telemetry_publisher.cpp:551-624 | in every run the rover remembers a goal if and only if the last acceptance or result was an acceptance, and then it is the goal accepted last |
| Goals.CancelRefusedExactly | src/rover_monitor/src/telemetry_publisher.cpp:933-950 | while a goal runs, a cancel is refused if and only if the last acceptance or result was a result |
| Answers.GoalAnswers | src/rover_monitor/src/telemetry_publisher.cpp:465-638 | in every run a goal (1 on the wire) is acknowledged ACCEPTED (1) exactly if the server accepts it, COMPLETED (3) exactly if it succeeds or is canceled, FAILED (4) exactly if it ends otherwise, and REJECTED (2) exactly if the server refuses it or the message has no goal, no server is up, or a goal was accepted last |
| Answers.CancelAnswers | src/rover_monitor/src/telemetry_publisher.cpp:933-974 | in every run a cancel (6) is acknowledged ACCEPTED exactly if it runs while a goal is remembered, REJECTED exactly if it runs while none is, COMPLETED and FAILED exactly as the server answers |
| Answers.OnlyAnswers | src/rover_monitor/src/telemetry_publisher.cpp:379-463 | in every run and state, arming and disarming (2, 3) are acknowledged ACCEPTED, the emergency stop (5) COMPLETED and unknown numbers REJECTED, exactly if they run, and never anything else but RECEIVED |
| Answers.RecordAnswers | src/rover_monitor/src/telemetry_publisher.cpp:975-1029 | driving (8) is acknowledged only when its part is missing; recording (9) ACCEPTED exactly for start, stop and toggle and REJECTED otherwise |
| ModeProcesses.RegisteredOnce | src/rover_monitor/src/telemetry_publisher.cpp:752-859 | an accepted registration keeps the found or started process and touches no other mode; while the process lives a second one is rejected and changes nothing |
| ModeProcesses.UnregisterUndoes | src/rover_monitor/src/telemetry_publisher.cpp:861-931 | unregistering after that is accepted and undoes it; the mode cannot be set before its next announcement, and then exactly for ids up to 127 |
| ModeProcesses.RegistrationExactly | src/rover_monitor/src/telemetry_publisher.cpp:752-859 | a registration is rejected exactly if there is no program for the mode or its process lives; otherwise a live process that is found is adopted and none is forked, else the forked one is kept, and FAILED is the answer exactly if none is found and the fork fails |
| ModeProcesses.MemoryIs | src/rover_monitor/src/telemetry_publisher.cpp:640-931 | in every run the process and the id remembered for each mode are those of the last registration and announcement, unless it was ended since |
| ModeProcesses.ModeAnswers | src/rover_monitor/src/telemetry_publisher.cpp:697-931 | in every run, which selections (4), registrations (10) and unregistrations (11) are ACCEPTED, REJECTED and FAILED, by what happened to the mode before |
| Orders.OrdersExactly | src/rover_monitor/src/telemetry_publisher.cpp:425-1029 | in every run an order to the vehicle, the recorder or the navigation server is given exactly if a command that was handled asks for it: arming only for 2, disarming for 3 and 5, moving as 8 says or to a stop for 5, the mode's announced id for 4, the goal of 1, the cancel of the goal accepted last for 6, the end of a mode's own or found process for 11 |
| Orders.EstopStops | src/rover_monitor/src/telemetry_publisher.cpp:445-463 | in every state an emergency stop orders a stop and a disarm at once, with nothing in between |
| Telemetry.AfterFrom | src/rover_monitor/src/telemetry_publisher.cpp:185-207 | what a callback's events do to any state is what they do at the end of any run |
| Telemetry.TelemetryPublisher.IsDuplicate | src/rover_monitor/src/telemetry_publisher.cpp:368-377 | an id is a duplicate exactly if the table has it; its time is never refreshed |
| Telemetry.TelemetryPublisher.OnMqttMessage | src/rover_monitor/src/telemetry_publisher.cpp:329-366 | receiving a message is the admission step followed by the enqueueing step of the protocol |
| Telemetry.TelemetryPublisher.SweepSeen | src/rover_monitor/src/telemetry_publisher.cpp:168-182 | the erasing loop leaves exactly the entries within the limit |
| Telemetry.TelemetryPublisher.Drain | src/rover_monitor/src/telemetry_publisher.cpp:185-207 | one drain callback is one swap, then a send for each swapped acknowledgement, then a dispatch for each swapped command, in queue order |
| Telemetry.TelemetryPublisher.DispatchCommand | src/rover_monitor/src/telemetry_publisher.cpp:379-423 | dispatching has the effect of the handler selected by the command number: acknowledgement, callback, memory and orders |
| Telemetry.TelemetryPublisher.HandleNavGoal | src/rover_monitor/src/telemetry_publisher.cpp:465-638 | rejects without a goal, without a server or with an active goal, otherwise asks the server, leaves a goal callback and says nothing |
| Telemetry.TelemetryPublisher.HandleSetMode | src/rover_monitor/src/telemetry_publisher.cpp:697-750 | accepts and sets exactly if the mode has a non-negative id; eight polls find what one finds |
| Telemetry.TelemetryPublisher.HandleRegisterMode | src/rover_monitor/src/telemetry_publisher.cpp:752-859 | which acknowledgement each path sends and which process the mode is left with |
| Telemetry.TelemetryPublisher.HandleUnregisterMode | src/rover_monitor/src/telemetry_publisher.cpp:861-931 | which acknowledgement each path sends and which process it ends; the process entry goes in every case, the cached id only on acceptance |
| Telemetry.TelemetryPublisher.OnGoalResponse | src/rover_monitor/src/telemetry_publisher.cpp:534-564 | an accepted goal becomes the active one, awaits its result and is acknowledged ACCEPTED; a refused one is acknowledged REJECTED |
| Telemetry.TelemetryPublisher.OnGoalResult | src/rover_monitor/src/telemetry_publisher.cpp:586-635 | the active goal is cleared and the result acknowledged COMPLETED or FAILED |
| Telemetry.TelemetryPublisher.OnCancelResponse | src/rover_monitor/src/telemetry_publisher.cpp:953-973 | a cancel callback acknowledges COMPLETED or FAILED |
| Tracking.RunInvariant | control_center/cc/ack_tracker.py:25-128 | at every await point of every run: at most 50 records with distinct ids, a record is terminal if and only if its id is not pending, pending futures have no result, each future gets one result, which is terminal and what the history shows, no timeout is early, every pending command has a watcher |
| Tracking.AckSettles | control_center/cc/ack_tracker.py:50-78 | a terminal acknowledgement of a pending command becomes its result and its history record; one that is not terminal only changes the record; one for a command that is not pending changes nothing |
| Tracking.SettledForGood | control_center/cc/ack_tracker.py:50-128 | in every continuation a resolved command keeps its result, gets no other, is not pending again, and the history shows nothing else for it |
| Tracking.DeadlineFires | control_center/cc/ack_tracker.py:80-108 | a watcher that finds its command pending past the deadline resolves it as failed and ends; before the deadline it changes nothing; when the command is settled it ends |
| Tracking.NeverForgotten | control_center/cc/ack_tracker.py:47-108 | every pending command is settled once its watching task is started and checks after the timeout |
| Tracking.SettledInTime | control_center/cc/ack_tracker.py:80-89 | with the sleeps of the watcher, and no task of a pending command ever more than d late, a command is still pending at most d after its timeout, or after d if that is longer |
| TrackerHistory.HistoryExactly | control_center/cc/ack_tracker.py:25-128 | in every run the history is the last 50 ids that came to the front, newest first, each with its latest record; an id comes to the front when it is recorded and is not among the last 50; each record has the status, the message and the round trip of its event |
| TrackerHistory.LeavesBehindFifty | control_center/cc/ack_tracker.py:122-128 | a record leaves the history only behind 50 others that came to the front after it |
| TrackerHistory.RejectionShown | control_center/cc/ack_tracker.py:110-120 | a local rejection comes to the front as REJECTED with its reason, and nothing else is ever shown for it |
| Tracking.AckTracker.UpsertHistory | control_center/cc/ack_tracker.py:122-128 | the loop replaces the record of the same id in place, or puts a new one in front and keeps the first 50 |
| Tracking.AckTracker.OnCmdSent | control_center/cc/ack_tracker.py:25-45 | registration: a fresh unset future with the type's timeout, and the SENT record |
| Tracking.AckTracker.OnCmdAck | control_center/cc/ack_tracker.py:50-75 | one acknowledgement is the acknowledging step |
| Tracking.AckTracker.WatchTimeout | control_center/cc/ack_tracker.py:80-106 | one turn of the watcher ends exactly if the command is not pending or has expired, and in the latter case resolves it as FAILED |
| Tracking.AckTracker.RecordLocalRejection | control_center/cc/ack_tracker.py:110-120 | a local rejection is recorded as REJECTED without becoming pending |
| Gateway.RejectedExactly | control_center/cc/cmd_gateway.py:101-123 | a message the gateway builds is rejected by the rover's handler if and only if the rover's state is in the way or the rover does not know the command; never for a missing part |
| Gateway.NothingMissing | control_center/cc/cmd_gateway.py:101-123 | adding any parts to a message of the gateway changes neither the rover's answer nor what it remembers |
| Gateway.RecordArrives | control_center/cc/cmd_gateway.py:114-118 | a record action arrives exactly if it was asked for, in upper or lower case, or nothing was asked for and it is toggle; every other request is refused |
| Gateway.DoneInRun | src/rover_monitor/src/telemetry_publisher.cpp:379-1029 | what an operator's command is answered and what the rover then orders, by name and parameters, after any run: which handler runs for each name, with which goal, motion, action or mode |
| Gateway.CommandGateway.SendCommand | control_center/cc/cmd_gateway.py:82-153 | publishes exactly the message of an allowed command; logs and registers it with the tracker in the same stretch unless it is a drive command; a refused command changes nothing |
| CommandSystem.NoRegistrationRace | control_center/cc/cmd_gateway.py:125-151 | in every run in which no subscriber called before the tracker suspends, an acknowledgement of a tracked command that the event loop handles finds it pending or already settled |
| CommandSystem.RegistrationRace | control_center/cc/event_bus.py:24-29 | with a subscriber before the tracker that suspends, there is a run in which an acknowledgement is handled while its command is neither pending nor settled |
| CommandSystem.NoRaceExactly | control_center/cc/event_bus.py:24-29 | there is no registration race in any run if and only if no subscriber the bus calls before the tracker suspends |
| CommandSystem.AckBeforeRegistration | control_center/cc/cmd_gateway.py:125-151 | with the tracker first on the bus, the rover's acknowledgement can exist before the registration, but the loop can only handle it afterwards |
| CommandSystem.AckOfSent | control_center/cc/cmd_gateway.py:93-129 | what the rover acknowledges was sent by the gateway, with the number of its type |
| CommandSystem.Outcome | control_center/cc/ack_tracker.py:50-108 | under any duplication, reordering and loss, without late copies, each tracked command is resolved at most once: by the rover's unique final acknowledgement or by a timeout that is not early |
| CommandSystem.Agreement | control_center/cc/ack_tracker.py:50-108 | a result and the history stay what they are in every continuation; a final acknowledgement of the rover, past or future, says the same if and only if the result is not a timeout or the rover's outcome is a failure |
| CommandSystem.TimeoutDisagrees | control_center/cc/ack_tracker.py:91-108 | a run in which the history says FAILED for good although the rover armed and answered ACCEPTED |
| CommandSystem.FinalAckWins | control_center/cc/ack_tracker.py:50-78 | if a final acknowledgement is handled while its command is pending, the rover's outcome is the result and what the history shows from then on |
| Results.FinalByName | src/rover_monitor/src/telemetry_publisher.cpp:379-463 | in every run of both sides without a late copy, the final acknowledgement of a sent emergency stop is COMPLETED, of arming, disarming and recording ACCEPTED, of an unknown command REJECTED; driving has none |
| Results.ResultMeans | control_center/cc/ack_tracker.py:50-78 | without late copies, what a result in the control centre says of each command: a goal COMPLETED if and only if the server said it succeeded or was canceled, FAILED if and only if it ended otherwise, REJECTED if and only if it was refused or never asked for; cancels, modes and processes likewise |
| Results.OrdersWereAsked | control_center/cc/cmd_gateway.py:82-129 | in every run of both sides, late copies or not, every order the rover gives was asked for by a sent command of the right name with the same goal, motion or action |
| ImuOrdering.InvRun | src/cuvslam_bringup/src/cuvslam_odom_node.cpp:314-437 | in every run the queue is increasing, newer than what was consumed, and fits the trace of tracker calls |
| ImuOrdering.OrderStep | src/cuvslam_bringup/src/cuvslam_odom_node.cpp:341-437 | a step keeps the trace in order if and only if it is not a late frame: registrations never break it |
| ImuOrdering.OrderExactly | src/cuvslam_bringup/src/cuvslam_odom_node.cpp:314-437 | over every run, whatever throws, samples and frames reach the tracker in strictly increasing order if and only if no late frame is taken |
| ImuOrdering.OrderWithoutThrows | src/cuvslam_bringup/src/cuvslam_odom_node.cpp:391-425 | when Track does not throw, the order holds for any interleaving, except exactly where a frame stamped zero is followed by one stamped zero or less |
| ImuOrdering.OrderForNonZeroStamps | src/cuvslam_bringup/src/cuvslam_odom_node.cpp:391-425 | when Track does not throw and no frame is stamped zero, the order holds |
| ImuOrdering.OrderForRisingFrames | src/cuvslam_bringup/src/cuvslam_odom_node.cpp:314-437 | if the frames that reach the tracker have increasing stamps, the order holds whatever throws |
| ImuFrames.FramesExactly | src/cuvslam_bringup/src/cuvslam_odom_node.cpp:314-437 | in every run, whatever is queued, the frames tracked are exactly those after the rig that decode, do not throw and are newer than the frame tracked before or follow one stamped zero; the samples queued are exactly those newer than all before and than the last tracked frame |
| ImuFrames.FrameTakes | src/cuvslam_bringup/src/cuvslam_odom_node.cpp:370-417 | a frame that is due, whether or not Track then throws, takes exactly the older samples that no throw keeps back and registers exactly those after the last tracked frame that do not throw, in order; any other frame changes nothing |
| ImuExactlyOnce.FlushWithoutThrows | src/cuvslam_bringup/src/cuvslam_odom_node.cpp:587-616 | without throws both flushes take everything older than the frame and register exactly the newer part of it |
| ImuExactlyOnce.FormsAgree | src/cuvslam_bringup/src/cuvslam_rgbd_node.cpp:341-365 | the two nodes' flushes agree if and only if no registration throws with samples still to come |
| ImuQueue.GoneExactly | src/cuvslam_bringup/src/cuvslam_odom_node.cpp:587-616 | over a run, an accepted sample has left the queue if and only if some frame took it: one that reached the tracker while the sample was queued, is stamped later, and was not stopped by a throw before it |
| ImuQueue.GoneWithoutThrows | src/cuvslam_bringup/src/cuvslam_odom_node.cpp:587-616 | when no registration throws, if and only if some frame that reached the tracker after its arrival is stamped later |
| ImuExactlyOnce.TraceBetween | src/cuvslam_bringup/src/cuvslam_odom_node.cpp:391-425 | between two consecutive tracked frames the trace is the registered samples and nothing older than the second frame stays queued |
| ImuExactlyOnce.ExactlyOnceIff | src/cuvslam_bringup/src/cuvslam_odom_node.cpp:320-425 | between consecutive tracked frames, the first not stamped zero, failed frames in between or not, exactly the accepted samples strictly between them are registered, once each and in order, if and only if no frame before the first took a queued sample from between them and no failed frame between them took a queued one as new as the second |
| ImuExactlyOnce.ExactlyOnce | src/cuvslam_bringup/src/cuvslam_odom_node.cpp:320-425 | that is so whenever no earlier frame is stamped later than either of the two |
| ImuExactlyOnce.NothingAfterZero | src/cuvslam_bringup/src/cuvslam_odom_node.cpp:593-598 | after a frame stamped zero nothing is registered up to the next tracked frame |
| CuvslamNodes.CuvslamOdomNode.ImuCallback | src/cuvslam_bringup/src/cuvslam_odom_node.cpp:314-339 | a sample is queued exactly if it is newer than the last sample and the last tracked frame |
| CuvslamNodes.CuvslamOdomNode.FlushImuMeasurements | src/cuvslam_bringup/src/cuvslam_odom_node.cpp:587-616 | the popping loops have the effect of the flush: discard before the first frame, stop at a throw |
| CuvslamNodes.CuvslamOdomNode.StereoCallback | src/cuvslam_bringup/src/cuvslam_odom_node.cpp:341-437 | a frame is one step; a throwing Track leaves its time stamp unchanged |
| CuvslamNodes.CuvslamRgbdNode.ImuCallback | src/cuvslam_bringup/src/cuvslam_rgbd_node.cpp:197-221 | the same two stamp tests and the push |
| CuvslamNodes.CuvslamRgbdNode.FlushImuMeasurements | src/cuvslam_bringup/src/cuvslam_rgbd_node.cpp:341-365 | the same with the throw inside the loop |
| CuvslamNodes.CuvslamRgbdNode.RgbdCallback | src/cuvslam_bringup/src/cuvslam_rgbd_node.cpp:223-284 | the RGB-D frame is the same step |
| CuvslamNodes.ZeroStampedTwice | src/cuvslam_bringup/src/cuvslam_odom_node.cpp:370-377 | two frames stamped zero are both tracked |
| CuvslamNodes.OlderFrameAfterThrow | src/cuvslam_bringup/src/cuvslam_odom_node.cpp:417-425 | a frame stamped 20 tracked after a failed one stamped 30 follows a sample stamped 25 |
| Quaternion.MulAssoc | src/px4_bringup/scripts/px4_vehicle_odometry.py:126-135 | the component formula is associative |
| Quaternion.UnitMul | src/px4_bringup/scripts/px4_vehicle_odometry.py:126-140 | products of unit quaternions are unit, so renormalising them changes nothing |
| Quaternion.RotateMul | src/px4_bringup/scripts/px4_vehicle_odometry.py:144-149 | rotating by a product is rotating twice |
| Quaternion.RotateBack | src/px4_bringup/scripts/px4_vehicle_odometry.py:138-149 | the conjugate undoes the rotation, both ways |
| Quaternion.RotateCross | src/px4_bringup/scripts/px4_vehicle_odometry.py:144-149 | rotations keep cross products, hence lever-arm velocities |
| RigidBody.ComposeAssoc | src/px4_bringup/src/px4_vehicle_odometry_node.cpp:231-233 | pose composition is associative |
| RigidBody.InverseLaws | src/cuvslam_bringup/src/cuvslam_odom_node.cpp:627-670 | a valid pose has a two-sided inverse |
| RigidBody.BetweenLeftInvariant | src/realsense_camera_bringup/src/odom_tf_relay.cpp:247-264 | a common change of world frame is invisible in relative motions |
| RigidBody.BetweenMounted | src/realsense_camera_bringup/src/odom_tf_relay.cpp:251-252 | a mount conjugates relative motions |
| FrameConversion.SwapIsRotation | src/px4_bringup/src/px4_vision_odom_node.cpp:62-68 | the ENU to NED quaternion rotates exactly as the component swap does |
| FrameConversion.ConvertedUnit | src/px4_bringup/src/px4_vision_odom_node.cpp:172-174 | converted orientations of unit quaternions are unit |
| FrameConversion.OrientationRoundTrip | src/px4_bringup/src/px4_vehicle_odometry_node.cpp:145-169 | outbound and inbound orientation conversions undo each other, sign included |
| FrameConversion.FrameSquare | src/px4_bringup/src/px4_vision_odom_node.cpp:163-195 | turning the FRD vector by the converted quaternion is the NED image of turning the FLU vector |
| FrameConversion.OutboundInbound | src/px4_bringup/src/px4_vision_odom_node.cpp:163-195 | odometry sent to PX4 and read back by stage 1 is the same odometry |
| FrameConversion.InboundOutbound | src/px4_bringup/src/px4_vehicle_odometry_node.cpp:117-169 | stage 1 converts exactly the messages in the frames it knows, and sending the result back restores the message with its body velocity |
| FrameConversion.BranchesAgree | src/px4_bringup/src/px4_vehicle_odometry_node.cpp:145-169 | the NED and the FRD velocity branch give the same odometry for the same motion |
| FrameConversion.WorldVelocityPreserved | src/px4_bringup/scripts/px4_mavlink_vpe.py:61-85 | the world velocity and rate seen through PX4's frames are the NED image of those seen through ROS frames |
| Reexpression.ReexpressCompose | src/px4_bringup/src/px4_vehicle_odometry_node.cpp:231-244 | moving by x and then y is moving by their composition, lever arms included |
| Reexpression.ReexpressBack | src/px4_bringup/src/px4_vehicle_odometry_node.cpp:231-244 | moving by the inverse restores pose, velocity and rate |
| Reexpression.RigidBodyLaw | src/realsense_camera_bringup/src/odom_tf_relay.cpp:266-277 | in the world frame the moved twist has the same rate, and the velocity of the moved point of a rigid body |
| AutopilotLoop.PoseReturns | src/px4_bringup/src/px4_vision_odom_node.cpp:138-195 | if the autopilot repeats what it is sent, base odometry sent with the autopilot's pose from the transform tree comes back, through stage 1 and stage 2, with its pose unchanged and its twist moved by the mount, because the twist is sent as it is |
| AutopilotLoop.OdometryReturnsExactly | src/px4_bringup/src/px4_vision_odom_node.cpp:138-195 | the odometry comes back as it was if and only if the mount does not move its twist; for an unrotated mount, if and only if the rate has no lever arm on it |
| AutopilotLoop.TurningOnTheSpotDrifts | src/px4_bringup/src/px4_vision_odom_node.cpp:180-195 | at the rover's mount, a turn on the spot of 1 rad/s comes back as 8.7 cm/s sideways |
| AutopilotLoop.AutopilotOdometryMoved | src/px4_bringup/src/px4_vehicle_odometry_node.cpp:215-271 | odometry given in the autopilot's frame comes back as the base's, pose and twist |
| AutopilotLoop.WithoutTransformExactly | src/px4_bringup/src/px4_vision_odom_node.cpp:150-160 | without the transform, base odometry comes back as it was if and only if the mount is the identity |
| VehicleOdom.Stage1IsGreedy | src/px4_bringup/src/px4_vehicle_odometry_node.cpp:117-140 | over every run stage 1 publishes exactly the readable messages the greedy gate lets through; unreadable ones do not use up the interval |
| VehicleOdom.Stage1Meaning | src/px4_bringup/src/px4_vehicle_odometry_node.cpp:142-189 | whatever the gate's state, each odometry stage 1 publishes has the message's position in ENU, an orientation that turns body vectors as the message's does, and in the world the message's velocity, in the NED and in the FRD branch, and its rate |
| VehicleOdom.MountExactly | src/px4_bringup/src/px4_vehicle_odometry_node.cpp:273-312 | in every run the mount used for a message is the one first found for its frame since one of another frame was found, else the one found now, else the identity |
| MountCache.CacheExactly | src/realsense_camera_bringup/src/odom_tf_relay.cpp:142-192 | a transform cache holds exactly what the first successful lookup since the last change of frame found |
| VehicleOdom.PX4VehicleOdometryNode.Stage1Callback | src/px4_bringup/src/px4_vehicle_odometry_node.cpp:117-211 | stage 1 checks the frames before the gate and converts |
| VehicleOdom.PX4VehicleOdometryNode.Stage2Callback | src/px4_bringup/src/px4_vehicle_odometry_node.cpp:215-271 | stage 2 moves the odometry by the cached, found or identity transform |
| Covariance.MatrixRotates | src/realsense_camera_bringup/src/odom_tf_relay.cpp:301 | the rotation matrix of a unit quaternion rotates as the quaternion does |
| Covariance.CovarianceFollows | src/realsense_camera_bringup/src/odom_tf_relay.cpp:109-138 | the rotated covariance gives rotated directions the covariance the original gives the directions |
| Covariance.RotatedBack | src/realsense_camera_bringup/src/odom_tf_relay.cpp:109-138 | rotating by the conjugate restores all 36 entries |
| Covariance.SymmetryKept | src/realsense_camera_bringup/src/odom_tf_relay.cpp:109-138 | a symmetric covariance stays symmetric |
| Covariance.RotateCovariance | src/realsense_camera_bringup/src/odom_tf_relay.cpp:109-138 | the block-by-block array form computes the rotated covariance |
| OdomRelay.UnlatchedExactly | src/realsense_camera_bringup/src/odom_tf_relay.cpp:254-262 | in every run nothing is latched exactly until the first message published from a sensor frame |
| OdomRelay.LatchStays | src/realsense_camera_bringup/src/odom_tf_relay.cpp:254-262 | in every run, whatever frames the messages come from, the latch is that message's pose moved by its mount and never changes |
| OdomRelay.OutputMeaning | src/realsense_camera_bringup/src/odom_tf_relay.cpp:197-317 | in every run, each pose published from a sensor frame is the motion from the first moved pose to the current one, each with the mount known at its time |
| OdomRelay.MountExactly | src/realsense_camera_bringup/src/odom_tf_relay.cpp:142-239 | in every run the mount used for a message from a sensor frame is the one first found since the messages come from that frame, and the identity until one is |
| OdomRelay.BaseFramePassed | src/realsense_camera_bringup/src/odom_tf_relay.cpp:208-228 | a message already in the base frame is passed on unchanged and leaves cache and latch alone |
| OdomRelay.UngatedRelaysAll | src/realsense_camera_bringup/src/odom_tf_relay.cpp:199-206 | with a minimum interval of zero or less every message is published |
| OdomRelay.RelativeMotionKept | src/realsense_camera_bringup/src/odom_tf_relay.cpp:247-264 | with the mount known from the first message, the first output is the identity and all relative output motions are the input motions conjugated by the mount |
| OdomRelay.LateMountShifts | src/realsense_camera_bringup/src/odom_tf_relay.cpp:182-192 | with a mount that becomes known later the output is the promised pose shifted by the mount, and equal to it if and only if the mount is the identity |
| OdomRelay.RelayIsGreedy | src/realsense_camera_bringup/src/odom_tf_relay.cpp:197-206 | over every run, whatever the frames and transforms, the relay publishes exactly what the greedy gate lets through |
| OdomRelay.RelayedCovariance | src/realsense_camera_bringup/src/odom_tf_relay.cpp:300-303 | the published covariance of two base-frame directions is the received one of the same directions in the sensor frame |
| OdomRelay.OdomTfRelay.Callback | src/realsense_camera_bringup/src/odom_tf_relay.cpp:197-317 | the callback is one step of the relay: gate, cache, latch, pose and twist; both covariances are turned to the base's axes, or passed on in the base frame |
| CuvslamLatch.StereoPublishesMotion | src/cuvslam_bringup/src/cuvslam_odom_node.cpp:627-670 | over every run the stereo node publishes the inverse of the first estimate composed with the current one, up to the sign its quaternion is extracted with; the change of axes cancels |
| CuvslamLatch.ExtractedIsProduct | src/cuvslam_bringup/src/cuvslam_rgbd_node.cpp:375-395 | any unit quaternion whose matrix is the converted matrix is the quaternion product, up to sign |
| CuvslamLatch.RgbdPublishesSame | src/cuvslam_bringup/src/cuvslam_rgbd_node.cpp:375-413 | over every run the RGB-D node's rotate-the-difference form publishes the stereo node's pose, whatever signs either extracts |
| CuvslamLatch.SwapInvolution | src/cuvslam_bringup/src/cuvslam_odom_node.cpp:672-679 | swapping the covariance blocks twice gives the covariance back, and symmetry is kept |
| CuvslamLatch.PartsExchanged | src/cuvslam_bringup/src/cuvslam_odom_node.cpp:672-679 | the published covariance of two directions is the tracker's of the directions with translation and rotation exchanged |
| CuvslamLatch.SwapCovariance | src/cuvslam_bringup/src/cuvslam_odom_node.cpp:672-679 | the two nested loops compute the swapped covariance |
| CuvslamLatch.StereoPublisher.PublishPose | src/cuvslam_bringup/src/cuvslam_odom_node.cpp:627-670 | the stereo latch and output as one call |
| CuvslamLatch.RgbdPublisher.PublishPose | src/cuvslam_bringup/src/cuvslam_rgbd_node.cpp:375-413 | the RGB-D latch and output as one call |
| RateGate.AcceptedSpaced | src/px4_bringup/src/px4_vision_odom_node.cpp:102-106 | accepted arrivals are pairwise at least the interval apart and follow the last acceptance |
| RateGate.AcceptedRate | src/px4_bringup/src/px4_vehicle_odometry_node.cpp:136-140 | any window of a given length holds at most length / interval + 1 accepted messages |
| RateGate.GreedyOptimal | src/realsense_camera_bringup/src/odom_tf_relay.cpp:200-206 | for non-decreasing arrivals from the interval on, the accepted ones are a spaced selection of them and no spaced selection is larger |
| RateGate.GreedyNearlyOptimal | src/realsense_camera_bringup/src/odom_tf_relay.cpp:200-206 | for any non-negative first arrival a spaced selection is larger by at most one |
| RateGate.GreedyOptimalExactly | src/realsense_camera_bringup/src/odom_tf_relay.cpp:200-206 | for any non-decreasing arrivals no spaced selection beats the gate if and only if a gate that starts open lets no more through |
| RateGate.ZeroStartCostsOne | src/px4_bringup/src/px4_vision_odom_node.cpp:102-106 | that one message can be lost |
| VisionOdom.NodeIsGreedy | src/px4_bringup/src/px4_vision_odom_node.cpp:100-119 | over every run, publishing and watchdog included, the node takes exactly what the greedy gate takes |
| VisionOdom.PublishedExactly | src/px4_bringup/src/px4_vision_odom_node.cpp:100-248 | in every run a sample is sent exactly if a message was let in and the watchdog has not found more than 5 s of silence since; it is the last message let in, with its own pose in the base frame and otherwise the transform's if there is one, seen from the autopilot's frames |
| VisionOdom.BoundedStaleness | src/px4_bringup/src/px4_vision_odom_node.cpp:100-132 | for ticks at most P apart, no sample is sent to PX4 later than 5 s + P after the last accepted message |
| VisionOdom.StalenessBoundReached | src/px4_bringup/src/px4_vision_odom_node.cpp:240-248 | with the 1 s watchdog a sample six seconds after the last message is sent |
| VisionOdom.PX4VisionOdomNode.OdomCallback | src/px4_bringup/src/px4_vision_odom_node.cpp:100-119 | gate and stash |
| VisionOdom.PX4VisionOdomNode.PubPx4Odom | src/px4_bringup/src/px4_vision_odom_node.cpp:123-236 | publishes the conversion of the stashed message, with the transform's pose if the message is not in the base frame |
| VisionOdom.PX4VisionOdomNode.CheckOdomStatus | src/px4_bringup/src/px4_vision_odom_node.cpp:240-248 | the watchdog switches publishing off after more than 5 s of silence |
| SlidingWindow.RatesExact | src/rover_monitor/src/cam_probe.cpp:172-201 | every status of the timer reports exactly the frames of the second before it, for any interleaving |
| SlidingWindow.SampleRatesExact | src/rover_monitor/src/cam_probe.cpp:92-108 | so does the status each stream sample publishes, the sample itself included |
| SlidingWindow.CamProbe.OnStreamSample | src/rover_monitor/src/cam_probe.cpp:92-108 | a stream sample is recorded and published with trimmed windows |
| SlidingWindow.CamProbe.OnDepthImage | src/rover_monitor/src/cam_probe.cpp:123-133 | a depth image is recorded and the popping loop trims its window |
| Heading.WrapFacts | src/px4_bringup/include/px4_bringup/rover_speed_attitude_mode.hpp:187-196 | the wrapping loops end, in range, a whole number of turns away |
| Heading.HeadingAccumulates | src/px4_bringup/include/px4_bringup/rover_speed_attitude_mode.hpp:123-174 | after any session the setpoint is the seed minus the summed rate times dt of the live cycles, up to whole turns |
| Heading.HeldOrWrapped | src/px4_bringup/include/px4_bringup/rover_speed_attitude_mode.hpp:123-174 | without a live cycle the seed is held exactly; with one the setpoint is in range |
| Heading.InRangeExactly | src/px4_bringup/include/px4_bringup/rover_speed_attitude_mode.hpp:101-174 | the setpoint is in range if and only if there was a live cycle or the seed was in range |
| Heading.SpeedOnlyWhenLive | src/px4_bringup/include/px4_bringup/rover_speed_attitude_mode.hpp:123-174 | a speed other than zero is sent only in a live cycle, and then the last commanded one |
| Heading.RoverSpeedAttitudeMode.OnActivate | src/px4_bringup/include/px4_bringup/rover_speed_attitude_mode.hpp:101-115 | activation seeds the heading and forgets earlier commands |
| Heading.RoverSpeedAttitudeMode.HandleTwist | src/px4_bringup/include/px4_bringup/rover_speed_attitude_mode.hpp:178-184 | a command is stored with its time |
| Heading.StopKeepsHeading | src/px4_bringup/include/px4_bringup/rover_speed_attitude_mode.hpp:117-174 | leaving the mode after any session stops the vehicle and keeps the heading it was last told, in range after a live cycle and that of the activation otherwise |
| Heading.RoverSpeedAttitudeMode.UpdateSetpoint | src/px4_bringup/include/px4_bringup/rover_speed_attitude_mode.hpp:123-174 | one control cycle: state and setpoint |
| ModeAnnounce.ParsePrinted | src/rover_monitor/src/telemetry_publisher.cpp:654-660 | the decimal parser reads back every printed integer that fits |
| ModeAnnounce.ParseExactly | src/rover_monitor/src/telemetry_publisher.cpp:654-660 | white space, a sign and digits are read as their number if it fits in 32 bits, whatever follows; nothing is read without digits |
| ModeAnnounce.ReadExactly | src/rover_monitor/src/telemetry_publisher.cpp:640-671 | of any message, the name before the last colon and the number behind it are kept exactly if there is a name and the number is 0 to 255 |
| ModeAnnounce.ReadPrinted | src/rover_monitor/src/telemetry_publisher.cpp:640-671 | what is read from the announcement of any name, colons included, and any id |
| ModeAnnounce.RoundTrip | src/px4_bringup/include/px4_bringup/mode_announce.hpp:46-48 | name and id are recovered if and only if the name is not empty and the id is 0 to 127 |
| ModeAnnounce.SelectableAfterAnnounce | src/rover_monitor/src/telemetry_publisher.cpp:697-736 | after an announcement the mode can be selected if and only if the id is at most 127; other modes are not affected |

## Left out

- MQTT, DDS, serial and web plumbing, launch files, telemetry, alerts and the user interface: input and output.
- cuVSLAM, PX4, Nav2 and the transform library: their answers are inputs of the events.
- The autopilot's estimator: in the loop through it, what is sent comes back unchanged.
- Floating-point rounding and the float and double constants: arithmetic is over the reals, except that pi is the code's float.
- Normalisation of quaternions that are not unit: inputs are unit, and products are proved to stay unit, so every `normalized()` in the modelled code is the identity.
- Goals: `RequestGoal` carries the numbers of the command; their change into a pose is not modelled.
- Message texts, log lines and wall-clock stamps of commands.
- The transport's delivery guarantees: any loss, repetition, delay and reordering is allowed, so nothing is proved about arrival.
- The extraction of a quaternion from a matrix in both cuVSLAM nodes: any unit quaternion with that matrix is allowed.
- `fork`, `exec`, `pgrep`, `kill`: what they find is an input; which acknowledgement follows, and which process is kept or ended, is modelled.
- Nav2 status labels and goals started elsewhere: no acknowledgement depends on them.
- Mode ids learned from PX4's registration reply (src/rover_monitor/src/telemetry_publisher.cpp:673-695): a second writer of the same table.
- The polling delay in set_mode: the announcing callback shares a mutually exclusive group with it, so the table cannot change meanwhile.
- Safety gate: its answer is an input of `SendCommand`.
- Subscribers of the sent event behind the tracker: they run after the registration. The delay another subscriber of the acknowledgement event causes is covered by delayed handling.
- Gateway.CommandGateway.SendCommand: the set_param fields, which no handler reads, the topic and the quality of service are not filled in.
- VehicleOdom.PX4VehicleOdometryNode.Stage1Callback: the covariance diagonal copied from PX4's variances is not part of the output.
- VehicleOdom.PX4VehicleOdometryNode.Stage2Callback: the covariances it passes on unchanged are not part of the output.
- VisionOdom.PX4VisionOdomNode.PubPx4Odom: time stamps, constant variances and quality are not part of the message.
- SlidingWindow.CamProbe.OnStreamSample: the time between two samples is not part of the status.
- Cancellation of asyncio tasks at shutdown.
- Tracking.AckTracker.WatchTimeout: one turn of the loop; the sleep between turns is the time between two calls, and its length is in `Tracking.SettledInTime`.
- Telemetry.TelemetryPublisher.OnMqttMessage: one uninterrupted call; that a sweep or a drain may come between its two critical sections is in the step model.
- Telemetry.TelemetryPublisher.OnModeAnnounce: the parsing is the function of `ModeAnnounce`, not repeated as statements.
- Covariance.RotateCovariance: reading a block is one value instead of two nested loops.
- Python versions of the odometry nodes: the component formulas are modelled, the pose caching of `px4_vision_odom.py` is not.

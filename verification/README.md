# Perseus: a verified model of the vehicle's control software

A Dafny model of the on-board software of a remotely operated underwater vehicle, and proofs about it:
the byte stream of the x-IMU sensor, the two PID controllers, the text commands and the thruster sender,
and the way all its threads share memory. `dafny verify dfyconfig.toml` checks everything.

## The parts

**The sensor stream.** The x-IMU sends packets of 8-bit bytes packed into 7-bit groups; a byte with its
top bit set closes a packet. `ImuCodec` defines the encoding as a bit string (the specification: it has
no code of its own in the repository) and shows that the shift-and-or lines of the receiver invert it.
`ImuReceiver` is the receiver object with its wrapping 256-byte buffer, proved against the unbounded
history of bytes since the last framing byte. `ImuStream` lifts this to whole streams and to the polling
loop: after any junk and any framing byte, every packet is decoded, in order, and every quaternion
published once. `QuaternionAlgebra` is about the polynomials inside the angle formulas.

**The controllers.** `PidLoop` holds what the yaw and the depth loop share: rounding to milliseconds, the
cyclic buffer of twenty errors, its sum, the PID formula. `YawControl` and `DepthControl` are the two
loops as objects that update their fields in place, proved against a state function, and theorems about
their whole runs: bounds, steering, symmetry.

**Commands and the sender.** `CommandText` models the command line from the characters in the read buffer
to the command, with strtok working in place. `ThrusterControl` is the change-only sender and what a
receiver of its messages knows.

**The threads.** `SharedState` is a state machine in which each lock, each read or write of one field and
each unlock is one step, any thread may step next, and any number of threads run any number of
activities: commands, controller iterations, sender ticks, sensor updates and reports, each transcribed
as a sequence of critical sections. `Mutexes` proves mutual exclusion, freedom from deadlock and
progress; `AtomicWrites` that field-by-field sections act as atomic ones; `Snapshots` that locked reads
are pictures of one moment; `Commands` that a command writes exactly its arguments; `ThrustHistory` that
every run is a run of three atomic thrust writes, where every thrust value comes from, and what the
sender transmits; `Quiescence` what disabling the vehicle guarantees. `ModeGate` says which mode lets whom
write thrust, `YawGains` and `DepthInTheLoop` put the controllers into the machine, `CommandPath` follows
commands from their lines to the memory and the wire, `ActuatorLoop` determines what the one loop that
takes the wrong mutex reads, and `Scenarios` builds two runs from start-up that show what the locking does
not prevent. `SharedTokens` is about the one place that strtok keeps for all threads. `Thrusts` and
`Wrappers` hold shared datatypes.

## Results where the code does not do what one would expect

- A framing bit leaks into the last decoded byte (the checksum, which the receiver never verifies), at a
  bit position that depends on the packet length; into no other byte (`RepackInvertsEncode`).
- The status that `processNewChar` returns, unlike the decoded data, can depend on bytes of earlier frames:
  exactly for the one-byte frames 0x82 to 0x85 (`StatusIgnoresStaleBytes`). A new receiver answers each of
  them otherwise than one that has received a certain frame before (`SpoilerSpoils`).
- The angle formulas assume a unit quaternion. For others the arguments are consistent only if degenerate
  (`AnglesConsistentExactlyWhen`); half a unit quaternion is an instance (`HalfQuaternionIsInconsistent`).
- A time step is the true one rounded to a millisecond exactly while the clock does not run backwards by
  more than half a millisecond, up to ties (`TimeStepErrorExactlyWhen`); one set back by 600
  microseconds gives 0 (`BackwardClockIsOff`).
- A vehicle at yaw exactly 0 never steers, wherever its target is (`OneSideNeutral`, `YawZeroNeverSteers`).
- A transmission that gets lost is not repeated until the thrust changes again
  (`LostTransmissionIsNotRepeated`; the exact condition is in `ChangeOnlyIsAlwaysSending`).
- Disabling the vehicle does not stop thrust writes: the mode is checked in one critical section and the
  thrust written in another. There are runs from start-up in which the thrust becomes any value at all
  after the vehicle has been disabled (`LateWriteHappens`). A thread can complete such a write if
  (`ArmedCanWrite`) and only if (`AtMostOneMoreWrite`) it had read an enabling mode before, and then once.
- The linear actuator loop reads its state under another mutex than the one its writer takes: there is a
  run from start-up in which it reads a pair of switches that the state never had (`ActuatorReadsTorn`).
  What it reads is determined for every interleaving (`ActuatorReadsExactly`), and so is when that is the
  state of one command (`ActuatorReadsWholeExactlyWhen`): always if no section of set_la is open from its
  first read to its last (`ActuatorReadsWhole`).
- strtok's place is shared by all threads. A call returns the token that is its turn, whatever the line, if
  and only if no other thread has called strtok since the line was started (`TokenisedExactlyWhen`). A
  sentence of the depth sounder between the words of a command makes its depth the thrust
  (`DepthBecomesThrust`).
- A comment in `src/vehicle_control/vehicle_control.cpp` line 22 speaks of the last 40 samples; the code
  keeps 20, and so does the model.

## Model

| member | source | states |
|---|---|---|
| ImuCodec.RepackInvertsEncode | src/imu/imu_receiver.cpp:126-158 | for every packet of any length, unpacking its 7-bit encoding gives back its size and every byte but the last, and the last with just bit (m-1) mod 7 + 1 forced to 1 by the framing bit |
| ImuCodec.PacketSizeIsPayload | src/imu/imu_receiver.cpp:126 | the size formula is floor(7n/8) for every n, so 0 when the index has wrapped to 0 |
| ImuCodec.FramingOnlyAtEnd | src/imu/imu_receiver.cpp:123 | an encoded packet contains exactly one framing byte, its last |
| ImuReceiver.ConcatIsOr | src/imu/imu_receiver.cpp:214-216 | putting two bytes together by addition is the code's shift and or |
| ImuReceiver.XimuReceiver.ExtractPacket | src/imu/imu_receiver.cpp:130-158 | the 28 unrolled assignments fill the packet array with the generic 7-to-8 repacking of the buffer |
| ImuReceiver.XimuReceiver.Dispatch | src/imu/imu_receiver.cpp:164-207 | header and exact size decide which one struct and flag change; a known header with a wrong size changes nothing and returns an error; an unknown header changes nothing |
| ImuReceiver.XimuReceiver.CloseFrame | src/imu/imu_receiver.cpp:125-205 | closing a frame delivers the update of the retained bytes alone and resets the index |
| ImuReceiver.XimuReceiver.ProcessNewChar | src/imu/imu_receiver.cpp:117-208 | the wrapping buffer always holds the last L mod 256 of the L bytes since the last framing byte; a framing byte delivers what those bytes mean, any other byte delivers nothing |
| ImuReceiver.XimuReceiver.GetQuaternion | src/imu/imu_receiver.cpp:240-243 | hands out the quaternion and clears its flag, and nothing else |
| ImuReceiver.UpdateIgnoresStaleBytes | src/imu/imu_receiver.cpp:119-205 | what a frame updates is a function of the bytes received since the last one, whatever else the buffer holds |
| ImuStream.UpdatesExactlyWhen | src/imu/imu_receiver.cpp:126-205 | a frame of any length updates a struct if and only if its header matches and its length modulo 256 is 7, 23 or 12 |
| ImuStream.UpdateIgnoresFramingByte | src/imu/imu_receiver.cpp:123-205 | the decoded fields do not depend on the framing byte |
| ImuStream.Feed | src/imu/imu_receiver.cpp:117-208 | a new receiver fed any stream has the buffer, the index and the answers that the specification gives for it |
| ImuStream.StatusIgnoresStaleBytes | src/imu/imu_receiver.cpp:126-207 | for a frame of any length, the returned status is the same after all histories that end a frame if and only if the frame is not a single byte from 0x82 to 0x85 |
| ImuStream.SpoilerSpoils | src/imu/imu_receiver.cpp:131-170 | for each of those four bytes a history of two or three bytes after which it is answered otherwise than by a new receiver |
| ImuStream.UpdatesOfConcat | src/imu/imu_receiver.cpp:117-208 | the updates of a stream can be computed piecewise, the frame in progress being all that is carried over |
| ImuStream.FrameUpdateInvertsEncode | src/imu/imu_receiver.cpp:171-216 | an encoded battery, inertial or quaternion packet decodes to its signed 16-bit fields divided by 2^q |
| ImuStream.StreamRoundTrip | src/imu/imu_receiver.cpp:117-216 | after any prefix and any framing byte, the encodings of any sequence of packets are decoded completely, in order and exactly |
| ImuStream.Poll | src/imu/init_imu.cpp:23-47 | one poll publishes a quaternion exactly when it completes a quaternion frame, and leaves no flag behind |
| ImuStream.InitImu | src/imu/init_imu.cpp:23-47 | over any number of polls the loop publishes exactly the quaternions of the stream's updates, in order |
| ImuStream.EveryQuaternionPublishedOnce | src/imu/init_imu.cpp:23-47 | after any prefix and framing byte, one orientation input per quaternion packet sent: none lost, repeated or reordered |
| ImuStream.StatusIs | src/imu/imu_receiver.cpp:164-207 | the answer to a framing byte is an error if and only if the header is 7, 9 or 10 and the size not 6, 20 or 10 |
| ImuStream.WellFormedIsAccepted | src/imu/imu_receiver.cpp:117-208 | the last byte of every well-formed packet, after any history that ends a frame, is answered without an error |
| ImuStream.OneMoreUpdate | src/imu/imu_receiver.cpp:164-205 | each update replaces the struct of its kind, raises the flag of its kind, and touches no other |
| QuaternionAlgebra.AnglesComeFromTurnedAxes | src/imu/quaternion.cpp:46-52 | for unit quaternions the arguments of all three angles, with their signs, are coordinates of the z axis turned by the quaternion and of the x axis turned back |
| QuaternionAlgebra.RollDefect | src/imu/quaternion.cpp:48-49 | for every quaternion the squared length of the roll arguments exceeds the pitch radicand by 4(N-1)(w²+z²), N being the squared norm |
| QuaternionAlgebra.YawDefect | src/imu/quaternion.cpp:49-50 | likewise for the yaw arguments, by 4(N-1)(w²+x²) |
| QuaternionAlgebra.AnglesConsistentExactlyWhen | src/imu/quaternion.cpp:46-52 | each argument pair has the pitch radicand as its squared length if and only if the norm is 1 or the pair is degenerate |
| QuaternionAlgebra.HalfQuaternionIsInconsistent | src/imu/quaternion.cpp:46-52 | the quaternion (0.5, 0, 0, 0) has inconsistent arguments for both angles |
| QuaternionAlgebra.PitchRadicandSign | src/imu/quaternion.cpp:49 | the square root is defined if and only if xz + wy is within 1/2, in particular whenever the norm is at most 1 |
| QuaternionAlgebra.ConjugateProperties | src/imu/quaternion.cpp:37-44 | conjugation is an involution, keeps the norm, and keeps the angle arguments of unit quaternions consistent |
| PidLoop.TimeStepRounds | src/vehicle_control/vehicle_control.cpp:52-57 | the time step is the elapsed time rounded to the nearest millisecond, for microsecond differences of either sign and clocks running either way |
| PidLoop.TimeStepErrorExactlyWhen | src/vehicle_control/vehicle_control.cpp:54-56 | it is within half a millisecond if and only if the clock has not run back by more than that, but for ties |
| PidLoop.BackwardClockIsOff | src/vehicle_control/vehicle_control.cpp:54-56 | a clock set back by 600 microseconds gives a time step of 0 |
| PidLoop.TimingErrorBounded | src/vehicle_control/autonomous_depth.cpp:48-53 | over n ticks of a monotone clock the sum of the time steps is within n/2 milliseconds of the elapsed time |
| PidLoop.ArrSum | src/helpers.cpp:99-106 | the loop returns the sum of the first len elements |
| PidLoop.WindowSlides | src/vehicle_control/autonomous_depth.cpp:46-69 | after any run the cyclic buffer read in time order is the last twenty of initial contents followed by measured errors |
| PidLoop.SumIsSlidingWindow | src/vehicle_control/autonomous_depth.cpp:71-73 | from the twentieth active tick on, the array sum is the sum of the last twenty errors, whatever the initial contents |
| PidLoop.SumSlides | src/vehicle_control/autonomous_depth.cpp:67-86 | each further tick adds the newest error to the sum and drops the one of twenty ticks before |
| PidLoop.PreviousErrorIsCurrentSlot | src/vehicle_control/autonomous_depth.cpp:69-86 | after the first active tick the stored previous error is the current slot |
| PidLoop.PidIsExplicit | src/vehicle_control/autonomous_depth.cpp:71-73 | the value of any tick of any run is kp times its error, plus ki times the sum of the last twenty errors in the history, plus kd times the slope from the error before |
| PidLoop.SlopeIs | src/vehicle_control/autonomous_depth.cpp:73 | the slope is the change of the error over the time step |
| PidLoop.KpActs | src/vehicle_control/vehicle_control.cpp:79-81 | raising kp by c adds c times the error, on every tick of every run |
| PidLoop.KiActs | src/vehicle_control/vehicle_control.cpp:79-81 | raising ki by c adds c times the sum of the last twenty errors, from the twentieth tick on |
| PidLoop.KdActs | src/vehicle_control/vehicle_control.cpp:79-81 | raising kd by c adds c times the slope from the error of the tick before |
| PidLoop.NoGainsNoAction | src/vehicle_control/vehicle_control.cpp:79-81 | without gains the value is 0 |
| PidLoop.PidBounds | src/vehicle_control/vehicle_control.cpp:79-81 | for errors in an interval the PID value stays in the interval the gains make of it |
| YawControl.VehicleControl.Iterate | src/vehicle_control/vehicle_control.cpp:32-116 | one iteration, with its early way out, moves the state as the loop specification says and writes the specified pair |
| YawControl.InitVehicleControl | src/vehicle_control/vehicle_control.cpp:32-117 | over any number of iterations, active or not, the state and every output are those of the run of the active ticks alone |
| YawControl.SteeringIsComparison | src/vehicle_control/vehicle_control.cpp:87-97 | the test on cosines picks the side that a comparison of the magnitudes of the angles would |
| YawControl.YawErrorIs | src/vehicle_control/vehicle_control.cpp:75 | the error is the distance of the magnitudes of target and yaw, for every combination of signs |
| YawControl.SteeringValueIs | src/vehicle_control/vehicle_control.cpp:46-81 | the PID value of every active iteration, from the inputs of the iterations in mode 2 alone |
| YawControl.SideThatSteers | src/vehicle_control/vehicle_control.cpp:84-112 | on every active iteration of every run, which side is 30 minus that value, kept below 75, and that the other is 30, for every position of yaw and target |
| YawControl.OneSideNeutral | src/vehicle_control/vehicle_control.cpp:84-105 | on every active tick of every run one side is exactly 30, and both are if and only if the PID value is 0, the magnitudes agree or the yaw is 0 |
| YawControl.YawZeroNeverSteers | src/vehicle_control/vehicle_control.cpp:89-105 | at yaw 0 with a target of 90 both outputs are 30, though the error is 90 |
| YawControl.YawThrustBounded | src/vehicle_control/vehicle_control.cpp:75-105 | both outputs stay in [30 - 180(kp + 20ki + kd), 30 + 180kd] and below 75 on every tick of every run, from the start or, whatever the buffer held, from the twentieth tick |
| YawControl.DefaultGainsNeverCap | src/main.cpp:110-113 | with the start-up gains every output is in [-45.6, 37.2], so the cap at 75 never fires |
| YawControl.MirrorSwapsSides | src/vehicle_control/vehicle_control.cpp:75-112 | negating all measured yaws leaves the loop state alone and swaps the two outputs on every tick |
| YawControl.TargetSignIrrelevant | src/vehicle_control/vehicle_control.cpp:75-97 | flipping the sign of any target yaws changes no output |
| DepthControl.AutonomousDepth.Iterate | src/vehicle_control/autonomous_depth.cpp:32-88 | one iteration moves the state as the loop specification says and writes the saturated PID value |
| DepthControl.InitAutonomousDepth | src/vehicle_control/autonomous_depth.cpp:32-89 | over any number of iterations, active or not, the state and every output are those of the run of the active ticks alone |
| DepthControl.HeaveIs | src/vehicle_control/autonomous_depth.cpp:46-84 | the output of every active iteration of every run, from desired minus measured depth, the sum of the last twenty such differences and their slope, kept within 65 |
| DepthControl.HeaveFromTwentieth | src/vehicle_control/autonomous_depth.cpp:46-84 | from the twentieth active iteration on, without the initial contents |
| DepthControl.HeaveHasTheSignOfTheDifference | src/vehicle_control/autonomous_depth.cpp:67-84 | with kp alone the heave is positive if and only if the desired depth is the greater one, negative if and only if it is the smaller one |
| DepthControl.DepthPidBounded | src/vehicle_control/autonomous_depth.cpp:67-84 | for errors and initial slots bounded by e, or from the twentieth tick, the PID value is at most (kp + 20ki + 2kd)e in magnitude on every tick of every run |
| DepthControl.DefaultGainsNeverSaturate | src/vehicle_control/autonomous_depth.cpp:79-84 | with the start-up gains and errors of at most 141 the clamp at 65 is the identity on every tick |
| DepthControl.MirrorNegatesHeave | src/vehicle_control/autonomous_depth.cpp:67-86 | negating all depths and the initial buffer negates every output |
| CommandText.ReadInvertsPrint | src/thruster_control/thruster_control.cpp:40-43 | reading a printed integer as a number gives the integer |
| CommandText.ReadFraction | src/mission_control/mission_control.cpp:42-45 | a number with n decimals, times ten to the n, is the number of all its digits |
| CommandText.ReadExponent | src/mission_control/mission_control.cpp:42-45 | an exponent multiplies by a power of ten, a negative one divides |
| CommandText.ReadSign | src/mission_control/mission_control.cpp:42-57 | a minus sign negates and a plus sign does nothing, for both readers |
| CommandText.StrIndex | src/helpers.cpp:18-26 | the scan finds the first occurrence |
| CommandText.StripNewline | src/helpers.cpp:28-30 | the string in the buffer becomes its part before the first newline, and only that character changes |
| CommandText.StrTok.Next | src/mission_control/mission_control.cpp:38-45 | successive calls give the tokens of the line in order; the delimiter behind the token becomes a terminator and nothing else in the buffer changes |
| CommandText.HandleLine | src/mission_control/mission_control.cpp:37-84 | from the buffer to the command: the outcome is that of the token list of the line, including missing arguments and unknown words |
| CommandText.SetThrustLine | src/mission_control/mission_control.cpp:40-46 | the line of four printed integers yields exactly these four thrusts |
| CommandText.SetOrientationLine | src/mission_control/mission_control.cpp:48-54 | the line with three words sets pitch, roll and yaw to their numbers, in this order |
| CommandText.SetModeLine | src/mission_control/mission_control.cpp:55-59 | the line with one word sets the mode to its integer |
| CommandText.SetPidValuesLine | src/mission_control/mission_control.cpp:60-66 | the line with three words sets kp, ki and kd to their numbers, in this order |
| CommandText.SetCurrentOrientationLine | src/mission_control/mission_control.cpp:67-70 | the word alone copies the orientation |
| CommandText.SetDepthLine | src/mission_control/mission_control.cpp:71-76 | the line with one word sets the depth to its number |
| CommandText.SetLaLine | src/mission_control/mission_control.cpp:77-83 | the line with two words sets laser and actuator to their integers, in this order |
| CommandText.OtherLines | src/mission_control/mission_control.cpp:39-84 | a line does nothing if and only if its first word is none of the seven, and passes a null pointer if and only if it has fewer arguments than its command takes |
| ThrusterControl.ThrusterControl.Iterate | src/thruster_control/thruster_control.cpp:25-58 | one tick transmits the text of the sample if and only if it differs from the last sample, which it then becomes |
| ThrusterControl.InitThrusterControl | src/thruster_control/thruster_control.cpp:23-61 | tick k of the loop is compared with sample k - 1 |
| ThrusterControl.TransmissionIs | src/thruster_control/thruster_control.cpp:40-43 | a new sample puts its four values on the wire in this order, each cut towards zero |
| ThrusterControl.ChangeOnlyIsAlwaysSending | src/thruster_control/thruster_control.cpp:23-58 | after every tick the receiver holds the truncated current sample if and only if the latest transmission got through or the last sample delivered truncates to the same; it always holds the last sample delivered |
| ThrusterControl.LostTransmissionIsNotRepeated | src/thruster_control/thruster_control.cpp:45-54 | for every thrust that truncates to something other than off, a lost first transmission leaves the receiver off after a second tick with the same sample |
| ThrusterControl.TransmissionsAreChanges | src/thruster_control/thruster_control.cpp:27-51 | the messages are the texts of the changed samples, as many as there are ticks with a change |
| ThrusterControl.CommandTextRoundTrip | src/mission_control/mission_control.cpp:37-46 | `/set_thrust a,b,c,d` handled without interference while enabled makes the next tick transmit exactly `a,b,c,d` unless that was the last sample; while disabled it changes nothing |
| SharedTokens.TokenisedExactlyWhen | src/mission_control/mission_control.cpp:38-80 | for every schedule of calls by any threads, a call returns the token of its line that is its turn, for all lines, if and only if no other thread has called strtok since the line was started |
| SharedTokens.DepthBecomesThrust | src/dst/init_dst.cpp:29-37 | a depth sentence started between two words of a thrust command gives the handler its depth as the thrust |
| SharedState.ProgramsGuarded | src/mission_control/actions.cpp:9-77 | every section of every activity accesses only fields that its mutex protects, if and only if the activity is not the linear actuator loop |
| Mutexes.RunExclusive | src/main.cpp:61-70 | in every reachable state a mutex is held by exactly the thread that is inside a section of it |
| Mutexes.HolderNeverWaits | src/mission_control/actions.cpp:9-77 | a thread holds at most one mutex, and while it holds one its next step is never blocked |
| Mutexes.NoDeadlock | src/diagnostics/actions.cpp:90-132 | for any number of threads, a thread in the middle of an activity can step, or waits for a mutex whose holder can |
| Mutexes.ActivitiesEnd | src/diagnostics/actions.cpp:90-132 | unless new activities begin, all threads together take at most the steps of the work that was left |
| AtomicWrites.StepRefines | src/mission_control/actions.cpp:17-22 | each step keeps the memory equal to the atomic one up to the sections being written, where only unlocking a writer changes the atomic one |
| AtomicWrites.RunRefines | src/mission_control/actions.cpp:17-22 | every interleaved run of field writes refines a run in which each section writes all its fields at once |
| Commands.SetterTakesEffect | src/mission_control/actions.cpp:9-77 | in every interleaving a completed command or sensor update has changed exactly its own fields, at one moment, to exactly the arguments of its call |
| Commands.WhatCommandsSet | src/mission_control/actions.cpp:9-77 | the fields of each command, by name |
| Commands.WhatSensorsSet | src/dst/init_dst.cpp:39-50 | the fields of each sensor update, by name |
| Commands.SetterHasTakenEffect | src/mission_control/actions.cpp:9-77 | in every interleaving a completed command or sensor update gave its fields the arguments of its call at the moment of its last unlock |
| Commands.SetCurrentOrientationTakesEffect | src/mission_control/actions.cpp:48-60 | a completed set_current_orientation gave the initial orientation the orientation of the moment at which it read it, and changed nothing else |
| Snapshots.CompletedWritesCommit | src/mission_control/actions.cpp:17-22 | every writing section that an activity has completed was committed by the thread itself in the step of its unlock |
| Snapshots.ReadsAreWhole | src/mission_control/actions.cpp:48-54 | a completed reading section whose mutex is that of its fields holds the values they had at the moment of its unlock, in the memory and in the atomic memory |
| Snapshots.InfoIsSevenMoments | src/diagnostics/actions.cpp:90-132 | each of the seven groups of a report is a value of its fields at one moment, and the moments increase in lock order between call and reply |
| Snapshots.InitialOrientationIsPast | src/mission_control/actions.cpp:48-60 | the initial orientation is the one at the start or one that the orientation held whole at an earlier moment |
| Commands.SwitchesAreWhole | src/mission_control/actions.cpp:71-77 | the atomic state of the linear actuator is the one at the start or that of one set_la call |
| ActuatorLoop.ActuatorReadsExactly | src/linear_actuator/init_la.cpp:25-51 | in every interleaving an iteration of the linear actuator loop reads each switch from the latest set_la to have written it when it was read |
| ActuatorLoop.ActuatorReadsWholeExactlyWhen | src/linear_actuator/init_la.cpp:25-51 | it reads the state of one command if as many laser writes precede its read of the laser as actuator writes its read of the actuator, and only then when no two commands agree on a switch |
| ActuatorLoop.ActuatorReadsWhole | src/linear_actuator/init_la.cpp:25-51 | it reads the atomic state of the moment of its last read if the mutex of set_la is free from its first read to its last |
| ActuatorLoop.MemoryIsMixed | src/mission_control/actions.cpp:71-77 | in every interleaving the three switches in memory are those of the latest command, or of the one before it where the latest has not written yet |
| Scenarios.StartupIsInitial | src/main.cpp:72-133 | the state that the runs below start from: manual mode, the start-up gains, everything else 0, all threads idle |
| Scenarios.ActuatorReadsTorn | src/linear_actuator/init_la.cpp:25-51 | there is a run from start-up in which an iteration of the linear actuator loop reads a combination of switches that the atomic state has at no step |
| ThrustHistory.CommittedThrust | src/vehicle_control/vehicle_control.cpp:109-112 | the atomic thrust changes only by the three actions: a whole tuple, the surge pair, heave_b |
| ThrustHistory.ThrustIsReplay | src/vehicle_control/autonomous_depth.cpp:82-84 | in every interleaving the thrust is the replay of the atomic actions completed so far, whenever no writer is in the middle of its section |
| ThrustHistory.ReplayProvenance | src/mission_control/actions.cpp:16-23 | a surge pair is from one single action, the last that was not by the depth loop; heave_a from the last command; heave_b from the last action that was not by the yaw loop |
| ThrustHistory.ActionsLegitimate | src/mission_control/actions.cpp:9-24 | commands write the arguments of a call in the run, the yaw loop pairs up to 75 with one side 30, the depth loop values within 65 |
| ThrustHistory.ThrustProvenance | src/thruster_control/thruster_control.cpp:26-48 | the thrust of any moment: surge pair initial, of one command or of the yaw loop; heave_a initial or of a command; heave_b initial, of a command or within 65 |
| ThrustHistory.YawOutputAllowed | src/vehicle_control/vehicle_control.cpp:84-105 | everything the yaw loop can output is among the values the state machine lets it write |
| ThrustHistory.DepthOutputAllowed | src/vehicle_control/autonomous_depth.cpp:71-80 | likewise for the depth loop |
| ThrustHistory.SenderReadsAtomic | src/thruster_control/thruster_control.cpp:26-43 | the tuple the sender compares is the atomic thrust of that moment |
| ThrustHistory.WireIsChangesOfAtomicThrust | src/thruster_control/thruster_control.cpp:23-58 | in every interleaving the sender transmits exactly those samples of the atomic thrust that differ from the sample before |
| ThrustHistory.CommandReachesWire | src/thruster_control/thruster_control.cpp:40-51 | if a command with four whole numbers was the last thrust write before a tick, that tick transmits their text unless it was the last sample |
| ModeGate.ModeNumbers | lib/perseus.h:35-38 | commands need a mode above 0, the yaw loop mode 2, the depth loop mode 3, in the state machine as in the controllers |
| ModeGate.FinishedWrites | src/mission_control/actions.cpp:9-24 | in every interleaving a finished thrust command has completed one thrust write if the mode was above 0 at the moment it read it and none otherwise; likewise a yaw iteration for mode 2 and a depth iteration for mode 3 |
| ModeGate.OnlyEnabledProceed | src/vehicle_control/vehicle_control.cpp:38-41 | no thread is beyond its mode test without having read the mode that lets it |
| CommandPath.ModeLineTakesEffect | src/mission_control/mission_control.cpp:55-59 | in every interleaving a handled line `/set_mode m` has set the shared mode to m |
| CommandPath.PidValuesLineTakesEffect | src/mission_control/mission_control.cpp:60-66 | a handled line `/set_pid_values a,b,c` has set the shared kp, ki and kd to these numbers |
| CommandPath.OrientationLineTakesEffect | src/mission_control/mission_control.cpp:48-54 | likewise the desired orientation |
| CommandPath.DepthLineTakesEffect | src/mission_control/mission_control.cpp:71-76 | likewise the desired depth |
| CommandPath.LaLineTakesEffect | src/mission_control/mission_control.cpp:77-83 | likewise the switches of the linear actuator |
| CommandPath.LineReachesWire | src/mission_control/mission_control.cpp:37-46 | in every interleaving, `/set_thrust a,b,c,d` handled with an enabling mode and no other thrust write before a tick makes that tick transmit exactly `a,b,c,d` unless that was the last sample, whatever else the handler has done since |
| YawGains.YawOutputRespects | src/vehicle_control/vehicle_control.cpp:79-105 | every output of a run of the controller stays within the bounds of the gains of its iteration, if its yaws are angles, its clock moves and its buffer holds errors or has been filled |
| YawGains.YawActionsRespectGains | src/vehicle_control/vehicle_control.cpp:40-112 | in every interleaving in which computed pairs respect the gains read, each pair the yaw loop writes respects gains that the memory held whole at an earlier moment |
| YawGains.ControllerRespectsGains | src/vehicle_control/vehicle_control.cpp:32-112 | that hypothesis holds of every interleaving in which the sensor publishes angles and the yaw loop computes the controller's outputs for the gains and yaws it reads, with a moving clock and errors in its buffer |
| YawGains.StartGainsBoundSurge | src/main.cpp:109-114 | under the same hypothesis, with the start-up gains and no gains command, the surge pair is initial, a command's, or within [-45.6, 37.2] with one side 30 |
| YawGains.ControlledSurgeBounded | src/vehicle_control/vehicle_control.cpp:32-112 | the same bound for every interleaving in which the yaw loop is the controller and the sensor publishes angles |
| YawGains.ControlledSteering | src/vehicle_control/vehicle_control.cpp:59-112 | in every such interleaving, each pair the yaw loop writes steers the proper side for a yaw and a later target that the shared memory held |
| DepthInTheLoop.ControlledHeave | src/vehicle_control/autonomous_depth.cpp:34-84 | in every interleaving in which the depth loop is the controller, each heave it writes is the controller's output for a depth and a later desired depth that the shared memory held |
| DepthInTheLoop.HeavesTowardsDesiredDepth | src/vehicle_control/autonomous_depth.cpp:57-84 | with kp alone that heave has the sign of desired minus measured depth |
| Quiescence.DisabledWithoutModeCommands | src/mission_control/actions.cpp:34-38 | the mode stays at most 0 once it is, no set_mode is under way and none is begun |
| Quiescence.AtMostOneMoreWrite | src/mission_control/actions.cpp:9-24 | while the mode stays 0, a thread past its mode test completes at most one more thrust write, any other none |
| Quiescence.MoreWritesBounded | src/mission_control/actions.cpp:34-38 | all threads together complete at most as many thrust writes as threads were past their test |
| Quiescence.ThrustFrozen | src/vehicle_control/vehicle_control.cpp:38-112 | once no thread is past its test the thrust in memory is constant for ever |
| Quiescence.MoreTransmissionsBounded | src/thruster_control/thruster_control.cpp:26-58 | the sender transmits at most once for each such thread and once more for what it had not yet sent |
| Quiescence.SenderRests | src/thruster_control/thruster_control.cpp:26-58 | after one more comparison the sender holds the thrust in memory for ever and never transmits again |
| Scenarios.LateWriteHappens | src/mission_control/actions.cpp:12-23 | for every thrust there is a run from start-up in which the vehicle is disabled with all thrusts at 0, stays so, and the thrust takes that value by exactly one write |
| Quiescence.ArmedCanWrite | src/mission_control/actions.cpp:12-23 | the bound is attained: in every reachable state a thread past its test has a continuation in which it completes a write while the mode stays what it has become and no new activity begins |

## Left out

- Sockets, accept loops, serial ports, reconnection, sleeping, logging and thread creation: bytes read are inputs, bytes written are outputs, and all threads of the state machine exist, idle, from the start.
- The x-IMU checksum: the receiver does not verify it, so the model does not either; any byte is accepted there.
- The getters and ready flags of battery and inertial data, which nothing in the repository calls to any effect.
- The 256-byte local array of the receiver starts zeroed in the model; only bytes that have been assigned are ever used.
- Floating-point rounding in the controllers and in atof: floats are reals. The fixed-point fields of the sensor are exact in binary32 anyway, as are printed integers below 2^24.
- The values of atan, atan2, sqrt and cos: cosine is any even function strictly decreasing from 0 to the constant that the code uses for pi; of the others only the arguments are modelled.
- `abs` in the yaw loop is the absolute value of reals, whichever overload the original compiler picks.
- A time step of 0, by which both controllers divide: the float result is infinite or not a number. The controllers' `requires` excludes it, the bounds ask for at least 1 in the tick they speak of.
- The missing initialiser in `arr_sum` (the sum starts at 0 here) and the missing return of `strindex` when the character does not occur (`StrIndex` requires that it does).
- Uninitialised error buffers have arbitrary contents in the model, given to the constructors.
- Conversion of thrusts beyond the range of int, which the C standard leaves undefined, is plain truncation. Overflow in atoi is not modelled.
- A read that fills the whole buffer or contains no newline; the buffer is taken to hold a terminated string with one. A missing argument, for which the original passes a null pointer on, is the outcome Crash.
- CommandText.HandleLine: does not model hexadecimal notation in atof, nor infinities and not-a-number, which are no reals; decimal numbers with fraction and exponent are modelled.
- ThrusterControl.CommandTextRoundTrip: takes set_thrust as uninterrupted; CommandPath.LineReachesWire is the statement for all interleavings.
- The place that strtok keeps is an object per line in `CommandText`; what sharing it does is in `SharedTokens`, on the texts, not on the buffers they lie in, which a thread may also overwrite with its next read.
- The position fields x, y and z, written only at start-up: the report that reads them is modelled as taking and releasing their mutex.
- In the state machine the controllers write any values with the properties of their outputs that hold unconditionally, and a command any arguments; YawGains and DepthInTheLoop add the controllers as hypotheses on the run, with their clocks as parameters. Field values are reals, the mode included.
- The unlocked reads of the mode in log messages of the controllers.
- What the linear actuator loop transmits; its reading of the shared state is in the state machine.
- Parsing of the depth sounder and the GPS receiver, the camera processes and the frame grabber.

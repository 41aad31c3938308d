/** The threads of the vehicle and the memory they share, as a state machine: every lock, every read or
  * write of a single field, and every unlock is a step of its own, and any thread may take the next
  * step. Any number of threads run any number of the activities below, one after the other.
  */
module SharedState {
  import opened Wrappers
  import opened Thrusts

  /** The mutexes of src/main.cpp. */
  datatype Mutex =
    | PositionMutex | ThrustMutex | OrientationMutex | DesiredOrientationMutex | ModeMutex
    | PidValuesMutex | InitialOrientationMutex | DstMutex | LinearActuatorMutex

  /** The fields of the shared structs. */
  datatype Field =
    | Mode
    | SurgePort | SurgeStarboard | HeaveA | HeaveB
    | Kp | Ki | Kd
    | Pitch | Roll | Yaw
    | InitialPitch | InitialRoll | InitialYaw
    | DesiredPitch | DesiredRoll | DesiredYaw | DesiredDepth
    | DepthFt | DepthM | Temperature
    | Lat | Lon | InView | InUse | Dilution
    | LedsOn | LaserOn | LaOn

  /** The mutex that protects a field. */
  function Guard(f: Field): Mutex {
    match f
    case Mode => ModeMutex
    case SurgePort | SurgeStarboard | HeaveA | HeaveB => ThrustMutex
    case Kp | Ki | Kd => PidValuesMutex
    case Pitch | Roll | Yaw => OrientationMutex
    case InitialPitch | InitialRoll | InitialYaw => InitialOrientationMutex
    case DesiredPitch | DesiredRoll | DesiredYaw | DesiredDepth => DesiredOrientationMutex
    case DepthFt | DepthM | Temperature => DstMutex
    case Lat | Lon | InView | InUse | Dilution => PositionMutex
    case LedsOn | LaserOn | LaOn => LinearActuatorMutex
  }

  /** A value for every field: the shared memory, or the local variables of a thread. */
  type Store = Field -> real

  function Put(s: Store, f: Field, v: real): Store {
    (g: Field) => if g == f then v else s(g)
  }

  // ---------------------------------------------------------------------------------------------
  // Programs
  // ---------------------------------------------------------------------------------------------

  datatype ModeTest = Enabled | Auton | AutonDepth

  predicate Passes(test: ModeTest, mode: real) {
    match test
    case Enabled => mode > 0.0
    case Auton => mode == 2.0
    case AutonDepth => mode == 3.0
  }

  datatype Controller = YawController | DepthController

  /** A local variable, named like the field it usually holds, stored to a shared field. */
  datatype Move = Move(to: Field, from: Field)

  /** What a thread does between two points at which it holds no lock. */
  datatype Block =
    | Reading(m: Mutex, fields: seq<Field>, send: bool) // lock; read the fields; transmit if changed; unlock
    | Writing(m: Mutex, moves: seq<Move>) // lock; write the fields; unlock
    | Test(test: ModeTest) // give up unless the mode just read passes
    | Compute(who: Controller) // compute new thrusts

  function Own(f: Field): Move {
    Move(f, f)
  }

  /** What threads do: the commands of mission control, one iteration of each loop, the reports. */
  datatype Activity =
    | SetThrust | SetOrientation | SetMode | SetPidValues | SetCurrentOrientation | SetDepth | SetLa
    | YawIteration | DepthIteration | SenderIteration | ActuatorIteration
    | PublishOrientation | PublishDepth | PublishTemperature | PublishPosition
    | GetInfo | GetThrust | GetOrientation | GetPosition

  const READ_MODE := Reading(ModeMutex, [Mode], false)
  const READ_PID := Reading(PidValuesMutex, [Kp, Ki, Kd], false)
  const READ_THRUST := Reading(ThrustMutex, [SurgePort, SurgeStarboard, HeaveA, HeaveB], false)
  const READ_ORIENTATION := Reading(OrientationMutex, [Pitch, Roll, Yaw], false)

  function Program(a: Activity): seq<Block> {
    match a
    case SetThrust =>
      [READ_MODE, Test(Enabled),
       Writing(ThrustMutex, [Own(SurgePort), Own(SurgeStarboard), Own(HeaveA), Own(HeaveB)])]
    case SetOrientation =>
      [Writing(DesiredOrientationMutex, [Own(DesiredPitch), Own(DesiredRoll), Own(DesiredYaw)])]
    case SetMode =>
      [Writing(ModeMutex, [Own(Mode)])]
    case SetPidValues =>
      [Writing(PidValuesMutex, [Own(Kp), Own(Ki), Own(Kd)])]
    case SetCurrentOrientation =>
      [READ_ORIENTATION,
       Writing(InitialOrientationMutex, [Move(InitialPitch, Pitch), Move(InitialRoll, Roll), Move(InitialYaw, Yaw)])]
    case SetDepth =>
      [Writing(DesiredOrientationMutex, [Own(DesiredDepth)])]
    case SetLa =>
      [Writing(LinearActuatorMutex, [Own(LedsOn), Own(LaserOn), Own(LaOn)])]
    case YawIteration =>
      [READ_MODE, Test(Auton), READ_PID, READ_ORIENTATION,
       Reading(InitialOrientationMutex, [InitialPitch, InitialRoll, InitialYaw], false),
       Compute(YawController),
       Writing(ThrustMutex, [Own(SurgeStarboard), Own(SurgePort)])]
    case DepthIteration =>
      [READ_MODE, Test(AutonDepth), READ_PID,
       Reading(DstMutex, [DepthFt], false),
       Reading(DesiredOrientationMutex, [DesiredDepth], false),
       Compute(DepthController),
       Writing(ThrustMutex, [Own(HeaveB)])]
    case SenderIteration =>
      [READ_THRUST.(send := true)]
    case ActuatorIteration =>
      [Reading(ThrustMutex, [LedsOn, LaserOn, LaOn], false)]
    case PublishOrientation =>
      [Writing(OrientationMutex, [Own(Pitch), Own(Roll), Own(Yaw)])]
    case PublishDepth =>
      [Writing(DstMutex, [Own(DepthFt), Own(DepthM)])]
    case PublishTemperature =>
      [Writing(DstMutex, [Own(Temperature)])]
    case PublishPosition =>
      [Writing(PositionMutex, [Own(Lat), Own(Lon), Own(InView), Own(InUse), Own(Dilution)])]
    case GetInfo =>
      [Reading(PositionMutex, [Lat, Lon, InView, InUse, Dilution], false),
       READ_THRUST, READ_ORIENTATION,
       Reading(DesiredOrientationMutex, [DesiredPitch, DesiredRoll, DesiredYaw, DesiredDepth], false),
       READ_MODE, READ_PID,
       Reading(DstMutex, [DepthFt, DepthM, Temperature], false)]
    case GetThrust =>
      [READ_THRUST]
    case GetOrientation =>
      [READ_ORIENTATION]
    case GetPosition => // its fields are written only before any thread starts
      [Reading(PositionMutex, [], false)]
  }

  /** The steps between lock and unlock. */
  function Steps(b: Block): nat {
    match b
    case Reading(_, fields, send) => |fields| + (if send then 1 else 0)
    case Writing(_, moves) => |moves|
    case _ => 0
  }

  predicate IsSection(b: Block) {
    b.Reading? || b.Writing?
  }

  // ---------------------------------------------------------------------------------------------
  // States
  // ---------------------------------------------------------------------------------------------

  datatype Place = Outside | Inside(done: nat)

  /** A thread: its current activity, the block it has reached, where it is within that block, and its
    * local variables. `stamps` is a history variable: the times at which the activity began and at
    * which each block was completed.
    */
  datatype Thread = Thread(activity: Activity, pc: nat, at: Place, regs: Store, stamps: seq<nat>)

  predicate Busy(th: Thread) {
    th.pc < |Program(th.activity)|
  }

  function Current(th: Thread): Block
    requires Busy(th)
  {
    Program(th.activity)[th.pc]
  }

  function ThrustIn(s: Store): Thrust {
    Thrust(s(SurgePort), s(SurgeStarboard), s(HeaveA), s(HeaveB))
  }

  /** The whole system. `prev` is the tuple the sender remembers and `wire` what it has transmitted;
    * `now` counts the steps taken.
    */
  datatype State = State(
    mem: Store, holder: Mutex -> Option<nat>, threads: seq<Thread>, prev: Thrust, wire: seq<Thrust>, now: nat)

  function SetHolder(h: Mutex -> Option<nat>, m: Mutex, t: Option<nat>): Mutex -> Option<nat> {
    (n: Mutex) => if n == m then t else h(n)
  }

  // ---------------------------------------------------------------------------------------------
  // Steps
  // ---------------------------------------------------------------------------------------------

  /** What a thread brings to a step: nothing, a new activity with its arguments, or computed thrusts. */
  datatype Choice = Go | Begin(activity: Activity, args: Store) | Computed(values: Store)

  datatype Label = Label(t: nat, choice: Choice)

  /** What the controllers can compute, for all that is known of their inputs: the yaw loop never
    * exceeds 75 and leaves one side at 30, the depth loop stays within 65.
    */
  predicate Allowed(who: Controller, v: Store) {
    match who
    case YawController =>
      v(SurgePort) <= 75.0 && v(SurgeStarboard) <= 75.0 && (v(SurgePort) == 30.0 || v(SurgeStarboard) == 30.0)
    case DepthController =>
      -65.0 <= v(HeaveB) <= 65.0
  }

  function WithComputed(who: Controller, regs: Store, v: Store): Store {
    match who
    case YawController => Put(Put(regs, SurgePort, v(SurgePort)), SurgeStarboard, v(SurgeStarboard))
    case DepthController => Put(regs, HeaveB, v(HeaveB))
  }

  /** set_la always switches the leds off. */
  predicate Admissible(a: Activity, args: Store) {
    a == SetLa ==> args(LedsOn) == 0.0
  }

  predicate CanStep(s: State, l: Label) {
    && l.t < |s.threads|
    && var th := s.threads[l.t];
       if !Busy(th) then l.choice.Begin? && Admissible(l.choice.activity, l.choice.args)
       else match Current(th)
            case Compute(who) => l.choice.Computed? && Allowed(who, l.choice.values)
            case Test(_) => l.choice.Go?
            case _ => l.choice.Go? && (th.at.Outside? ==> s.holder(Current(th).m) == None)
  }

  /** The thread after it has completed its current block. */
  function Finish(th: Thread, now: nat): Thread {
    th.(pc := th.pc + 1, at := Outside, stamps := th.stamps + [now])
  }

  function WithThread(s: State, t: nat, th: Thread): State
    requires t < |s.threads|
  {
    s.(threads := s.threads[t := th], now := s.now + 1)
  }

  function Step(s: State, l: Label): State
    requires CanStep(s, l)
  {
    var th := s.threads[l.t];
    if !Busy(th) then
      WithThread(s, l.t, Thread(l.choice.activity, 0, Outside, l.choice.args, [s.now + 1]))
    else
      match Current(th)
      case Test(test) =>
        WithThread(s, l.t, if Passes(test, th.regs(Mode)) then Finish(th, s.now + 1)
                           else th.(pc := |Program(th.activity)|))
      case Compute(who) =>
        WithThread(s, l.t, Finish(th.(regs := WithComputed(who, th.regs, l.choice.values)), s.now + 1))
      case _ =>
        if th.at.Outside? then
          WithThread(s.(holder := SetHolder(s.holder, Current(th).m, Some(l.t))), l.t, th.(at := Inside(0)))
        else if th.at.done < Steps(Current(th)) then
          Inner(s, l.t)
        else
          WithThread(s.(holder := SetHolder(s.holder, Current(th).m, None)), l.t, Finish(th, s.now + 1))
  }

  /** A step between lock and unlock. */
  function Inner(s: State, t: nat): State
    requires t < |s.threads| && Busy(s.threads[t]) && IsSection(Current(s.threads[t]))
    requires s.threads[t].at.Inside? && s.threads[t].at.done < Steps(Current(s.threads[t]))
  {
    var th := s.threads[t];
    var k := th.at.done;
    var next := th.(at := Inside(k + 1));
    match Current(th)
    case Reading(_, fields, _) =>
      if k < |fields| then WithThread(s, t, next.(regs := Put(th.regs, fields[k], s.mem(fields[k]))))
      else if ThrustIn(th.regs) != s.prev then
        WithThread(s.(prev := ThrustIn(th.regs), wire := s.wire + [ThrustIn(th.regs)]), t, next)
      else WithThread(s, t, next)
    case Writing(_, moves) =>
      WithThread(s.(mem := Put(s.mem, moves[k].to, th.regs(moves[k].from))), t, next)
  }

  /** All threads idle, with no past; all mutexes free. */
  predicate Initial(s: State) {
    && (forall t :: 0 <= t < |s.threads| ==>
          !Busy(s.threads[t]) && s.threads[t].at.Outside? && s.threads[t].stamps == [])
    && (forall m: Mutex :: s.holder(m) == None)
    && s.wire == [] && s.now == 0
  }

  /** The states of a run; step n is labels[n]. */
  ghost predicate IsRun(states: seq<State>, labels: seq<Label>) {
    && |states| == |labels| + 1
    && forall n :: 0 <= n < |labels| ==> CanStep(states[n], labels[n]) && states[n + 1] == Step(states[n], labels[n])
  }

  // ---------------------------------------------------------------------------------------------
  // Programs are well formed
  // ---------------------------------------------------------------------------------------------

  /** Every access is protected by its field's mutex. */
  predicate Guarded(b: Block) {
    match b
    case Reading(m, fields, send) =>
      (forall k :: 0 <= k < |fields| ==> Guard(fields[k]) == m) && (send ==> b == READ_THRUST.(send := true))
    case Writing(m, moves) =>
      forall k :: 0 <= k < |moves| ==> Guard(moves[k].to) == m
    case _ => true
  }

  lemma CommandGuards()
    ensures Guard(Mode) == ModeMutex
    ensures Guard(SurgePort) == Guard(SurgeStarboard) == Guard(HeaveA) == Guard(HeaveB) == ThrustMutex
    ensures Guard(Kp) == Guard(Ki) == Guard(Kd) == PidValuesMutex
    ensures Guard(LedsOn) == Guard(LaserOn) == Guard(LaOn) == LinearActuatorMutex
  {
  }

  lemma OrientationGuards()
    ensures Guard(Pitch) == Guard(Roll) == Guard(Yaw) == OrientationMutex
    ensures Guard(InitialPitch) == Guard(InitialRoll) == Guard(InitialYaw) == InitialOrientationMutex
    ensures Guard(DesiredPitch) == Guard(DesiredRoll) == Guard(DesiredYaw) == DesiredOrientationMutex
    ensures Guard(DesiredDepth) == DesiredOrientationMutex
  {
  }

  lemma SensorGuards()
    ensures Guard(DepthFt) == Guard(DepthM) == Guard(Temperature) == DstMutex
    ensures Guard(Lat) == Guard(Lon) == Guard(InView) == Guard(InUse) == Guard(Dilution) == PositionMutex
  {
  }

  lemma ReadingsGuarded()
    ensures Guarded(READ_MODE) && Guarded(READ_PID) && Guarded(READ_ORIENTATION)
    ensures Guarded(READ_THRUST) && Guarded(READ_THRUST.(send := true))
  {
    hide Guard;
    CommandGuards();
    OrientationGuards();
  }

  /** Every block of every activity protects its accesses with the mutex of the fields, with the one
    * exception of the linear actuator loop, which reads its fields under the thrust mutex.
    */
  lemma ProgramsGuarded(a: Activity, pc: nat)
    requires pc < |Program(a)|
    ensures Guarded(Program(a)[pc]) <==> a != ActuatorIteration
  {
    hide Guard, READ_MODE, READ_PID, READ_THRUST, READ_ORIENTATION;
    CommandGuards();
    OrientationGuards();
    SensorGuards();
    ReadingsGuarded();
    if a == ActuatorIteration {
      assert Program(a)[pc].fields[0] == LedsOn;
    }
  }
}

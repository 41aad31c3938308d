/** What the commands and the sensor updates do: each writes its own arguments, whole, and nothing else. */
module Commands {
  import opened SharedState
  import opened AtomicWrites
  import opened Snapshots

  /** The fields that an activity is there to set to its arguments. */
  predicate Sets(a: Activity, f: Field) {
    match a
    case SetThrust => f == SurgePort || f == SurgeStarboard || f == HeaveA || f == HeaveB
    case SetOrientation => f == DesiredPitch || f == DesiredRoll || f == DesiredYaw
    case SetMode => f == Mode
    case SetPidValues => f == Kp || f == Ki || f == Kd
    case SetDepth => f == DesiredDepth
    case SetLa => f == LedsOn || f == LaserOn || f == LaOn
    case PublishOrientation => f == Pitch || f == Roll || f == Yaw
    case PublishDepth => f == DepthFt || f == DepthM
    case PublishTemperature => f == Temperature
    case PublishPosition => f == Lat || f == Lon || f == InView || f == InUse || f == Dilution
    case _ => false
  }

  /** The activity writes nothing but arguments: it is a command other than set_current_orientation, or
    * the update of a sensor.
    */
  predicate IsSetter(a: Activity) {
    exists f :: Sets(a, f)
  }

  lemma {:induction false} MovedOwn(a: Store, regs: Store, moves: seq<Move>, f: Field)
    requires forall k :: 0 <= k < |moves| ==> moves[k] == Own(moves[k].to)
    ensures Moved(a, regs, moves)(f) == if Own(f) in moves then regs(f) else a(f)
  {
    if moves != [] {
      var front, last := moves[..|moves| - 1], moves[|moves| - 1];
      MovedOwn(a, regs, front, f);
      assert moves == front + [last];
    }
  }

  /** The section of a setter: it writes the fields it is there to set, each with its own argument. */
  predicate SetsOwn(a: Activity, moves: seq<Move>, f: Field) {
    && (forall k :: 0 <= k < |moves| ==> moves[k] == Own(moves[k].to))
    && (Own(f) in moves <==> Sets(a, f))
  }

  lemma CommandSections(a: Activity, pc: nat, f: Field)
    requires pc < |Program(a)| && Program(a)[pc].Writing?
    requires a.SetMode? || a.SetDepth? || a.PublishTemperature? || a.PublishDepth?
    ensures SetsOwn(a, Program(a)[pc].moves, f)
  {
  }

  lemma ThrustSections(a: Activity, pc: nat, f: Field)
    requires pc < |Program(a)| && Program(a)[pc].Writing?
    requires a.SetThrust?
    ensures SetsOwn(a, Program(a)[pc].moves, f)
  {
  }

  lemma OrientationSections(a: Activity, pc: nat, f: Field)
    requires pc < |Program(a)| && Program(a)[pc].Writing?
    requires a.SetOrientation? || a.PublishOrientation?
    ensures SetsOwn(a, Program(a)[pc].moves, f)
  {
  }

  lemma PidValuesSections(a: Activity, pc: nat, f: Field)
    requires pc < |Program(a)| && Program(a)[pc].Writing?
    requires a.SetPidValues?
    ensures SetsOwn(a, Program(a)[pc].moves, f)
  {
  }

  lemma LaSections(a: Activity, pc: nat, f: Field)
    requires pc < |Program(a)| && Program(a)[pc].Writing?
    requires a.SetLa?
    ensures SetsOwn(a, Program(a)[pc].moves, f)
  {
  }

  lemma PositionMoves()
    ensures |Program(PublishPosition)| == 1 && Program(PublishPosition)[0].Writing?
    ensures var moves := Program(PublishPosition)[0].moves;
            && |moves| == 5 && moves[0] == Own(Lat) && moves[1] == Own(Lon) && moves[2] == Own(InView)
            && moves[3] == Own(InUse) && moves[4] == Own(Dilution)
  {
  }

  lemma PositionSections(a: Activity, pc: nat, f: Field)
    requires pc < |Program(a)| && Program(a)[pc].Writing?
    requires a.PublishPosition?
    ensures SetsOwn(a, Program(a)[pc].moves, f)
  {
    PositionMoves();
    hide Program;
    var moves := Program(a)[pc].moves;
    forall k | 0 <= k < |moves|
      ensures moves[k] == Own(moves[k].to) && Sets(a, moves[k].to)
    {
      if k < 2 {
        assert moves[k] == if k == 0 then Own(Lat) else Own(Lon);
      } else if k < 4 {
        assert moves[k] == if k == 2 then Own(InView) else Own(InUse);
      }
    }
  }

  lemma SetterSections(a: Activity, pc: nat, f: Field)
    requires pc < |Program(a)| && Program(a)[pc].Writing? && IsSetter(a)
    ensures SetsOwn(a, Program(a)[pc].moves, f)
  {
    hide Program, SetsOwn;
    match a
    case SetMode | SetDepth | PublishTemperature | PublishDepth => CommandSections(a, pc, f);
    case SetThrust => ThrustSections(a, pc, f);
    case SetOrientation | PublishOrientation => OrientationSections(a, pc, f);
    case SetPidValues => PidValuesSections(a, pc, f);
    case SetLa => LaSections(a, pc, f);
    case PublishPosition => PositionSections(a, pc, f);
    case _ =>
  }

  lemma SetThrustKeepsArguments(f: Field)
    requires Sets(SetThrust, f)
    ensures Keeps(SetThrust, f)
  {
  }

  lemma SingleBlockSetters(a: Activity)
    requires IsSetter(a) && a != SetThrust
    ensures |Program(a)| == 1 && Program(a)[0].Writing?
  {
  }

  lemma SettersKeepArguments(a: Activity, f: Field)
    requires Sets(a, f)
    ensures Keeps(a, f)
  {
    hide Program, Sets;
    if a == SetThrust {
      SetThrustKeepsArguments(f);
    } else {
      SingleBlockSetters(a);
    }
  }

  /** In every interleaving, a command or sensor update that completes has changed exactly the fields it
    * is there for, all at one moment, to exactly the arguments with which it was begun.
    */
  lemma SetterTakesEffect(states: seq<State>, labels: seq<Label>, n: nat)
    requires IsRun(states, labels) && Initial(states[0]) && n < |labels| && Commits(states[n], labels[n])
    requires IsSetter(states[n].threads[labels[n].t].activity)
    ensures var th := states[n].threads[labels[n].t];
            && th.stamps != [] && 1 <= th.stamps[0] <= |labels|
            && var begin := labels[th.stamps[0] - 1];
               && begin.t == labels[n].t && begin.choice.Begin? && begin.choice.activity == th.activity
               && forall f :: Atomic(states, labels, n + 1)(f)
                              == if Sets(th.activity, f) then begin.choice.args(f) else Atomic(states, labels, n)(f)
  {
    hide Step, CanStep, Program, Initial, Remembers, Keeps, Sets, IsSetter;
    var t := labels[n].t;
    var th := states[n].threads[t];
    RunHistory(states, labels, n, t);
    var args := labels[th.stamps[0] - 1].choice.args;
    forall f
      ensures Atomic(states, labels, n + 1)(f) == if Sets(th.activity, f) then args(f) else Atomic(states, labels, n)(f)
    {
      SetterSections(th.activity, th.pc, f);
      MovedOwn(Atomic(states, labels, n), th.regs, Current(th).moves, f);
      if Sets(th.activity, f) {
        SettersKeepArguments(th.activity, f);
      }
    }
  }

  // The fields of each command and sensor update, by name.

  lemma WhatCommandsSet(f: Field)
    ensures Sets(SetThrust, f) <==> f in {SurgePort, SurgeStarboard, HeaveA, HeaveB}
    ensures Sets(SetOrientation, f) <==> f in {DesiredPitch, DesiredRoll, DesiredYaw}
    ensures Sets(SetMode, f) <==> f == Mode
    ensures Sets(SetPidValues, f) <==> f in {Kp, Ki, Kd}
    ensures Sets(SetDepth, f) <==> f == DesiredDepth
    ensures Sets(SetLa, f) <==> f in {LedsOn, LaserOn, LaOn}
  {
  }

  lemma WhatSensorsSet(f: Field)
    ensures Sets(PublishOrientation, f) <==> f in {Pitch, Roll, Yaw}
    ensures Sets(PublishDepth, f) <==> f in {DepthFt, DepthM}
    ensures Sets(PublishTemperature, f) <==> f == Temperature
    ensures Sets(PublishPosition, f) <==> f in {Lat, Lon, InView, InUse, Dilution}
  {
  }

  lemma WhoSets(a: Activity)
    ensures IsSetter(a) <==> a in {SetThrust, SetOrientation, SetMode, SetPidValues, SetDepth, SetLa,
                                   PublishOrientation, PublishDepth, PublishTemperature, PublishPosition}
  {
    assert Sets(SetThrust, HeaveA) && Sets(SetOrientation, DesiredYaw) && Sets(SetMode, Mode);
    assert Sets(SetPidValues, Kp) && Sets(SetDepth, DesiredDepth) && Sets(SetLa, LaOn);
    assert Sets(PublishOrientation, Yaw) && Sets(PublishDepth, DepthM) && Sets(PublishTemperature, Temperature);
    assert Sets(PublishPosition, Lat);
  }

  lemma LastBlockWrites(a: Activity)
    requires IsSetter(a) || a == SetCurrentOrientation
    ensures |Program(a)| > 0 && Program(a)[|Program(a)| - 1].Writing?
  {
  }

  /** The thread has completed all blocks of its activity. */
  predicate Complete(th: Thread) {
    |th.stamps| == |Program(th.activity)| + 1
  }

  /** A complete command or sensor update has taken effect: at the moment of its last unlock its fields took
    * the arguments of its call, and no other field changed.
    */
  lemma SetterHasTakenEffect(states: seq<State>, labels: seq<Label>, n: nat, t: nat)
    requires IsRun(states, labels) && Initial(states[0]) && n < |states| && t < |states[n].threads|
    requires IsSetter(states[n].threads[t].activity) && Complete(states[n].threads[t])
    ensures var th := states[n].threads[t];
            && |th.stamps| > 1 && 1 <= th.stamps[0] <= |labels|
            && var begin, moment := labels[th.stamps[0] - 1], th.stamps[|th.stamps| - 1];
               && 0 < moment <= n
               && begin.t == t && begin.choice.Begin? && begin.choice.activity == th.activity
               && forall f :: Atomic(states, labels, moment)(f)
                              == if Sets(th.activity, f) then begin.choice.args(f)
                                 else Atomic(states, labels, moment - 1)(f)
  {
    hide Step, CanStep, Program, Initial, Remembers, Keeps, Sets, IsSetter, Commits, Atomic;
    var th := states[n].threads[t];
    var j := |Program(th.activity)| - 1;
    LastBlockWrites(th.activity);
    RunHistory(states, labels, n, t);
    CompletedWritesCommit(states, labels, n, t, j);
    SetterTakesEffect(states, labels, th.stamps[j + 1] - 1);
  }

  /** A completed set_current_orientation has taken effect too: at the moment of its last unlock the initial
    * orientation became the orientation of the moment of its first, and no other field changed.
    */
  lemma SetCurrentOrientationTakesEffect(states: seq<State>, labels: seq<Label>, n: nat, t: nat)
    requires IsRun(states, labels) && Initial(states[0]) && n < |states| && t < |states[n].threads|
    requires states[n].threads[t].activity == SetCurrentOrientation && |states[n].threads[t].stamps| == 3
    ensures var stamps := states[n].threads[t].stamps;
            && 0 < stamps[1] < stamps[2] <= n
            && var before, after := Atomic(states, labels, stamps[2] - 1), Atomic(states, labels, stamps[2]);
               var read := Atomic(states, labels, stamps[1]);
               && after(InitialPitch) == read(Pitch) && after(InitialRoll) == read(Roll)
               && after(InitialYaw) == read(Yaw)
               && forall f :: f !in {InitialPitch, InitialRoll, InitialYaw} ==> after(f) == before(f)
  {
    hide Step, CanStep, Program, Initial, Keeps, Atomic, COPY_ORIENTATION, READ_ORIENTATION, Remembers;
    var th := states[n].threads[t];
    CopyProgram();
    RunHistory(states, labels, n, t);
    CompletedWritesCommit(states, labels, n, t, 1);
    var m := th.stamps[2] - 1;
    CopyCommits(states, labels, m);
    assert states[m].threads[t].stamps[1] == th.stamps[1];
  }

  lemma CopyProgram()
    ensures |Program(SetCurrentOrientation)| == 2 && Program(SetCurrentOrientation)[0] == READ_ORIENTATION
    ensures Program(SetCurrentOrientation)[1] == Writing(InitialOrientationMutex, COPY_ORIENTATION)
  {
  }

  lemma CopyCommits(states: seq<State>, labels: seq<Label>, m: nat)
    requires IsRun(states, labels) && Initial(states[0]) && m < |labels| && Commits(states[m], labels[m])
    requires states[m].threads[labels[m].t].activity == SetCurrentOrientation
    requires states[m].threads[labels[m].t].pc == 1 && |states[m].threads[labels[m].t].stamps| == 2
    ensures states[m].threads[labels[m].t].stamps[1] <= m
    ensures var before, after := Atomic(states, labels, m), Atomic(states, labels, m + 1);
            var read := Atomic(states, labels, states[m].threads[labels[m].t].stamps[1]);
            && after(InitialPitch) == read(Pitch) && after(InitialRoll) == read(Roll) && after(InitialYaw) == read(Yaw)
            && forall f :: f !in {InitialPitch, InitialRoll, InitialYaw} ==> after(f) == before(f)
  {
    hide Step, CanStep, Program, Initial, Keeps, READ_ORIENTATION, Guard, Began, Remembers, Moved;
    var t := labels[m].t;
    var th := states[m].threads[t];
    CopyProgram();
    OrientationGuards();
    ReadsOrientation();
    ProgramsGuarded(SetCurrentOrientation, 0);
    ReadsAreWhole(states, labels, m, t, 0, Pitch);
    ReadsAreWhole(states, labels, m, t, 0, Roll);
    ReadsAreWhole(states, labels, m, t, 0, Yaw);
    OrientationCopied(Atomic(states, labels, m), th.regs);
    forall f | f !in {InitialPitch, InitialRoll, InitialYaw}
      ensures Atomic(states, labels, m + 1)(f) == Atomic(states, labels, m)(f)
    {
      MovedPast(Atomic(states, labels, m), th.regs, COPY_ORIENTATION, f);
    }
  }

  // ---------------------------------------------------------------------------------------------
  // The state of the linear actuator
  // ---------------------------------------------------------------------------------------------

  datatype Switches = Switches(leds: real, laser: real, la: real)

  function SwitchesIn(s: Store): Switches {
    Switches(s(LedsOn), s(LaserOn), s(LaOn))
  }

  /** The step begins a set_la command with the arguments v. */
  predicate Switched(l: Label, v: Switches) {
    l.choice.Begin? && l.choice.activity == SetLa && SwitchesIn(l.choice.args) == v
  }

  lemma LaWriters(th: Thread)
    requires Busy(th) && Current(th).Writing? && Current(th).m == LinearActuatorMutex
    ensures th.activity == SetLa && IsSetter(SetLa)
    ensures Sets(SetLa, LedsOn) && Sets(SetLa, LaserOn) && Sets(SetLa, LaOn)
  {
    assert Sets(SetLa, LedsOn);
  }

  lemma LaPrograms()
    ensures Program(SetLa) == [Writing(LinearActuatorMutex, [Own(LedsOn), Own(LaserOn), Own(LaOn)])]
    ensures Program(ActuatorIteration) == [Reading(ThrustMutex, [LedsOn, LaserOn, LaOn], false)]
  {
  }

  /** A commit of set_la leaves the arguments of its call. */
  lemma LaCommits(states: seq<State>, labels: seq<Label>, n: nat)
    requires IsRun(states, labels) && Initial(states[0]) && n < |labels| && Commits(states[n], labels[n])
    requires Current(states[n].threads[labels[n].t]).m == LinearActuatorMutex
    ensures exists k :: 0 <= k < |labels| && Switched(labels[k], SwitchesIn(Atomic(states, labels, n + 1)))
  {
    hide Step, CanStep, Program, Initial, Sets, IsSetter, Committed, Atomic;
    var th := states[n].threads[labels[n].t];
    LaWriters(th);
    SetterTakesEffect(states, labels, n);
    assert Switched(labels[th.stamps[0] - 1], SwitchesIn(Atomic(states, labels, n + 1)));
  }

  /** The atomic state of the linear actuator is the one at the start or that of one set_la command. */
  lemma {:induction false} SwitchesAreWhole(states: seq<State>, labels: seq<Label>, n: nat)
    requires IsRun(states, labels) && Initial(states[0]) && n < |states|
    ensures var v := SwitchesIn(Atomic(states, labels, n));
            v == SwitchesIn(states[0].mem) || exists k :: 0 <= k < |labels| && Switched(labels[k], v)
  {
    hide Step, CanStep, Program, Initial, Guard, Moved, Switched;
    if n > 0 {
      SwitchesAreWhole(states, labels, n - 1);
      var s, l, a := states[n - 1], labels[n - 1], Atomic(states, labels, n - 1);
      if Commits(s, l) {
        var th := s.threads[l.t];
        if Current(th).m == LinearActuatorMutex {
          LaCommits(states, labels, n - 1);
        } else {
          CurrentGuarded(th);
          CommandGuards();
          MovedElsewhere(a, th.regs, Current(th).moves, Current(th).m, LedsOn);
          MovedElsewhere(a, th.regs, Current(th).moves, Current(th).m, LaserOn);
          MovedElsewhere(a, th.regs, Current(th).moves, Current(th).m, LaOn);
        }
      }
    }
  }
}

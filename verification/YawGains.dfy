/** What the gains mean for the interleaved system: every surge pair that the yaw loop writes respects
  * gains that the shared memory held, whole, at one moment.
  */
module YawGains {
  import opened Wrappers
  import opened SharedState
  import opened Mutexes
  import opened AtomicWrites
  import opened Snapshots
  import opened ThrustHistory
  import opened Commands
  import PidLoop
  import YawControl

  function GainsIn(s: Store): PidLoop.Gains {
    PidLoop.Gains(s(Kp), s(Ki), s(Kd))
  }

  function SurgeIn(s: Store): YawControl.Surge {
    YawControl.Surge(s(SurgePort), s(SurgeStarboard))
  }

  /** A surge pair is within the bounds that gains give it, if they are not negative. */
  predicate Respects(surge: YawControl.Surge, g: PidLoop.Gains) {
    g.Nonnegative() ==> YawControl.Bounded(surge, g)
  }

  /** What the yaw loop computes respects the gains that it has read: so it does in every run of the
    * controller whose yaws are angles, whose clock moves and whose error buffer started with errors
    * between 0 and 180 or has been filled since.
    */
  ghost predicate YawRespectsGains(states: seq<State>, labels: seq<Label>)
    requires |states| == |labels| + 1
  {
    forall n :: 0 <= n < |labels| && ComputesYaw(states[n], labels[n]) ==>
      Respects(SurgeIn(labels[n].choice.values), GainsIn(states[n].threads[labels[n].t].regs))
  }

  predicate ComputesYaw(s: State, l: Label) {
    && l.t < |s.threads| && Busy(s.threads[l.t]) && Current(s.threads[l.t]) == Compute(YawController)
    && l.choice.Computed?
  }

  lemma YawOutputRespects(
    cos: real -> real, l: PidLoop.Loop, ins: seq<YawControl.YawInput>, k: nat, regs: Store, v: Store)
    requires l.Valid() && YawControl.TimeMoves(l, ins) && YawControl.YawsInRange(ins)
    requires k < |ins| && ins[k].mode == YawControl.MODE_AUTON
    requires PidLoop.Within(l, 0.0, 180.0) || |YawControl.ActiveTicks(ins[..k + 1])| >= PidLoop.NUM_ERRORS
    requires PidLoop.TimeStep(YawControl.StateBefore(l, ins, k).prevTime, ins[k].now) >= 1
    requires ins[k].gains == GainsIn(regs) && YawControl.OutputAt(cos, l, ins, k) == Some(SurgeIn(v))
    ensures Respects(SurgeIn(v), GainsIn(regs))
  {
    hide YawControl.Bounded;
    if GainsIn(regs).Nonnegative() {
      YawControl.YawThrustBounded(cos, l, ins, k);
    }
  }

  /** A yaw iteration about to write still has what it computed, and the gains it used. */
  predicate Computed(th: Thread) {
    th.activity == YawIteration && th.pc == 6 ==> Respects(SurgeIn(th.regs), GainsIn(th.regs))
  }

  lemma StepComputedGains(s: State, l: Label)
    requires CanStep(s, l) && Busy(s.threads[l.t]) && Computed(s.threads[l.t])
    requires ComputesYaw(s, l) ==> Respects(SurgeIn(l.choice.values), GainsIn(s.threads[l.t].regs))
    ensures l.t < |Step(s, l).threads| && Computed(Step(s, l).threads[l.t])
  {
    assert l.t < |s.threads|;
    hide Program, Respects, Allowed, Step, CanStep, WithComputed, SurgeIn, GainsIn;
    var th, th' := s.threads[l.t], Step(s, l).threads[l.t];
    StepContinues(s, l);
    StepComputes(s, l);
    ComputingBlocks();
    if th.activity == YawIteration && th'.pc == 6 && th.pc == 5 {
      YawComputed(th.regs, l.choice.values);
    }
  }

  lemma YawComputed(regs: Store, v: Store)
    ensures SurgeIn(WithComputed(YawController, regs, v)) == SurgeIn(v)
    ensures GainsIn(WithComputed(YawController, regs, v)) == GainsIn(regs)
  {
  }

  lemma BeginsUncomputed(s: State, l: Label)
    requires CanStep(s, l) && !Busy(s.threads[l.t])
    ensures l.t < |Step(s, l).threads| && Computed(Step(s, l).threads[l.t])
  {
    hide Program, Step;
    StepBegins(s, l);
  }

  lemma InitialUncomputed(s: State, t: nat)
    requires Initial(s) && t < |s.threads|
    ensures Computed(s.threads[t])
  {
    hide Program;
    ComputingBlocks();
  }

  lemma {:induction false} RunComputedGains(states: seq<State>, labels: seq<Label>, n: nat, t: nat)
    requires IsRun(states, labels) && Initial(states[0]) && YawRespectsGains(states, labels)
    requires n < |states| && t < |states[n].threads|
    ensures Computed(states[n].threads[t])
  {
    hide Step, CanStep, Program, Initial, Computed, Respects;
    if n == 0 {
      InitialUncomputed(states[0], t);
    } else {
      var s, l := states[n - 1], labels[n - 1];
      StepOthers(s, l, t);
      RunComputedGains(states, labels, n - 1, t);
      if l.t == t {
        if Busy(s.threads[t]) {
          StepComputedGains(s, l);
        } else {
          BeginsUncomputed(s, l);
        }
      }
    }
  }

  /** The surge pair of an action respects gains that the memory held at some moment up to n. */
  ghost predicate RespectsHeld(states: seq<State>, labels: seq<Label>, n: nat, act: Action)
    requires n < |states| == |labels| + 1
  {
    act.ByYaw? ==>
      exists k :: 0 <= k <= n
        && Respects(YawControl.Surge(act.port, act.starboard), GainsIn(Atomic(states, labels, k)))
  }

  lemma ReadsPid()
    ensures |Program(YawIteration)| == 7 && Program(YawIteration)[2] == READ_PID && READ_PID.Reading?
    ensures Kp in READ_PID.fields && Ki in READ_PID.fields && Kd in READ_PID.fields
  {
    assert READ_PID.fields[0] == Kp && READ_PID.fields[1] == Ki && READ_PID.fields[2] == Kd;
  }

  lemma CommitRespects(states: seq<State>, labels: seq<Label>, n: nat)
    requires IsRun(states, labels) && Initial(states[0]) && YawRespectsGains(states, labels)
    requires n < |labels| && CommitsThrust(states[n], labels[n])
    ensures RespectsHeld(states, labels, n, ActionOf(states[n].threads[labels[n].t]))
  {
    hide Step, CanStep, Program, Initial, Respects, Began, Remembers, READ_PID, Atomic;
    var t := labels[n].t;
    var th := states[n].threads[t];
    if th.activity == YawIteration {
      ThrustWriters(th);
      RunComputedGains(states, labels, n, t);
      RunHistory(states, labels, n, t);
      ReadsPid();
      ProgramsGuarded(YawIteration, 2);
      ReadsAreWhole(states, labels, n, t, 2, Kp);
      ReadsAreWhole(states, labels, n, t, 2, Ki);
      ReadsAreWhole(states, labels, n, t, 2, Kd);
      assert GainsIn(th.regs) == GainsIn(Atomic(states, labels, th.stamps[3]));
    }
  }

  /** In every interleaving, each surge pair written by the yaw loop respects gains that the shared memory
    * held at one moment before.
    */
  lemma {:induction false} YawActionsRespectGains(states: seq<State>, labels: seq<Label>, n: nat)
    requires IsRun(states, labels) && Initial(states[0]) && YawRespectsGains(states, labels) && n < |states|
    ensures forall act :: act in Actions(states, labels, n) ==> RespectsHeld(states, labels, n, act)
  {
    hide Step, CanStep, Program, Initial, CommitsThrust, Respects, Atomic;
    if n > 0 {
      YawActionsRespectGains(states, labels, n - 1);
      if CommitsThrust(states[n - 1], labels[n - 1]) {
        CommitRespects(states, labels, n - 1);
      }
      forall act | act in Actions(states, labels, n)
        ensures RespectsHeld(states, labels, n, act)
      {
        assert RespectsHeld(states, labels, n - 1, act);
      }
    }
  }

  // ---------------------------------------------------------------------------------------------
  // The gains set at start-up
  // ---------------------------------------------------------------------------------------------

  lemma GainWriters(th: Thread)
    requires Busy(th) && Current(th).Writing? && Current(th).m == PidValuesMutex
    ensures th.activity == SetPidValues
  {
  }

  predicate NoGainsCommand(labels: seq<Label>) {
    forall k :: 0 <= k < |labels| && labels[k].choice.Begin? ==> labels[k].choice.activity != SetPidValues
  }

  lemma {:induction false} GainsStay(states: seq<State>, labels: seq<Label>, n: nat)
    requires IsRun(states, labels) && Initial(states[0]) && NoGainsCommand(labels) && n < |states|
    ensures GainsIn(Atomic(states, labels, n)) == GainsIn(states[0].mem)
  {
    hide Step, CanStep, Program, Initial, Guard, Moved, Keeps, Remembers;
    if n > 0 {
      GainsStay(states, labels, n - 1);
      var s, l, a := states[n - 1], labels[n - 1], Atomic(states, labels, n - 1);
      if Commits(s, l) {
        var th := s.threads[l.t];
        if Current(th).m == PidValuesMutex {
          GainWriters(th);
          RunHistory(states, labels, n - 1, l.t);
        } else {
          CurrentGuarded(th);
          CommandGuards();
          MovedElsewhere(a, th.regs, Current(th).moves, Current(th).m, Kp);
          MovedElsewhere(a, th.regs, Current(th).moves, Current(th).m, Ki);
          MovedElsewhere(a, th.regs, Current(th).moves, Current(th).m, Kd);
        }
      }
    }
  }

  const START_GAINS := PidLoop.Gains(0.18, 0.01, 0.04)

  lemma StartRange(surge: YawControl.Surge)
    requires Respects(surge, START_GAINS)
    ensures -45.6 <= surge.port <= 37.2 && -45.6 <= surge.starboard <= 37.2
  {
  }

  /** With the gains set at start-up, and in every interleaving, the surge pair is the initial one, that
    * of one command, or one between -45.6 and 37.2 with a side at exactly 30.
    */
  lemma StartGainsBoundSurge(states: seq<State>, labels: seq<Label>, n: nat)
    requires IsRun(states, labels) && Initial(states[0]) && YawRespectsGains(states, labels) && n < |states|
    requires GainsIn(states[0].mem) == START_GAINS && NoGainsCommand(labels)
    ensures var start, r := ThrustIn(states[0].mem), ThrustIn(Atomic(states, labels, n));
            || (r.surgePort == start.surgePort && r.surgeStarboard == start.surgeStarboard)
            || (exists k, c :: 0 <= k < |labels| && Commanded(labels[k], c)
                  && r.surgePort == c.surgePort && r.surgeStarboard == c.surgeStarboard)
            || (-45.6 <= r.surgePort <= 37.2 && -45.6 <= r.surgeStarboard <= 37.2
                && (r.surgePort == 30.0 || r.surgeStarboard == 30.0))
  {
    hide Step, CanStep, Initial, Actions, Commanded, Atomic, Replay, ThrustIn, Respects, YawRespectsGains, GainsIn;
    var acts := Actions(states, labels, n);
    ThrustIsReplay(states, labels, n);
    ActionsLegitimate(states, labels, n);
    YawActionsRespectGains(states, labels, n);
    ReplayProvenance(ThrustIn(states[0].mem), acts);
    match Last(acts, (act: Action) => !act.ByDepth?)
    case Some(ByYaw(port, starboard)) =>
      assert RespectsHeld(states, labels, n, ByYaw(port, starboard));
      var k :| 0 <= k <= n && Respects(YawControl.Surge(port, starboard), GainsIn(Atomic(states, labels, k)));
      GainsStay(states, labels, k);
      StartRange(YawControl.Surge(port, starboard));
    case _ =>
  }

  // ---------------------------------------------------------------------------------------------
  // The controller in the loop
  // ---------------------------------------------------------------------------------------------

  predicate IsAngle(x: real) {
    -180.0 <= x <= 180.0
  }

  /** The sensor publishes angles, and the two yaws are angles at the start. */
  predicate YawsAreAngles(start: State, labels: seq<Label>) {
    && IsAngle(start.mem(Yaw)) && IsAngle(start.mem(InitialYaw))
    && forall k :: 0 <= k < |labels| && labels[k].choice.Begin? && labels[k].choice.activity == PublishOrientation ==>
         IsAngle(labels[k].choice.args(Yaw))
  }

  lemma OrientationWriters(th: Thread)
    requires Busy(th) && Current(th).Writing? && Current(th).m == OrientationMutex
    ensures th.activity == PublishOrientation && IsSetter(PublishOrientation) && Sets(PublishOrientation, Yaw)
  {
    assert Sets(PublishOrientation, Yaw);
  }

  lemma {:induction false} YawStaysAngle(states: seq<State>, labels: seq<Label>, n: nat)
    requires IsRun(states, labels) && Initial(states[0]) && YawsAreAngles(states[0], labels) && n < |states|
    ensures IsAngle(Atomic(states, labels, n)(Yaw))
  {
    hide Step, CanStep, Initial, Program, Guard, Moved, Sets, IsSetter;
    if n > 0 {
      YawStaysAngle(states, labels, n - 1);
      var s, l, a := states[n - 1], labels[n - 1], Atomic(states, labels, n - 1);
      if Commits(s, l) {
        var th := s.threads[l.t];
        if Current(th).m == OrientationMutex {
          OrientationWriters(th);
          SetterTakesEffect(states, labels, n - 1);
        } else {
          CurrentGuarded(th);
          OrientationGuards();
          MovedElsewhere(a, th.regs, Current(th).moves, Current(th).m, Yaw);
        }
      }
    }
  }

  lemma InitialYawStaysAngle(states: seq<State>, labels: seq<Label>, n: nat)
    requires IsRun(states, labels) && Initial(states[0]) && YawsAreAngles(states[0], labels) && n < |states|
    ensures IsAngle(Atomic(states, labels, n)(InitialYaw))
  {
    hide Step, CanStep, Initial, Atomic, Guard;
    InitialOrientationIsPast(states, labels, n);
    var v := InitialOrientationIn(Atomic(states, labels, n));
    if v != InitialOrientationIn(states[0].mem) {
      var k :| 0 <= k <= n && states[k].holder(OrientationMutex) == None && OrientationIn(states[k].mem) == v;
      OrientationGuards();
      FreeMeansWhole(states, labels, k, Yaw);
      YawStaysAngle(states, labels, k);
    }
  }

  /** What the yaw loop computes with in the steps before n, its k-th clock reading being clock(k). */
  ghost function Inputs(
    states: seq<State>, labels: seq<Label>, clock: nat -> PidLoop.TimeVal, n: nat): seq<YawControl.YawInput>
    requires n < |states| == |labels| + 1
  {
    if n == 0 then []
    else
      var before := Inputs(states, labels, clock, n - 1);
      if ComputesYaw(states[n - 1], labels[n - 1]) then
        before + [InputOf(states[n - 1].threads[labels[n - 1].t].regs, clock(|before|))]
      else before
  }

  function InputOf(regs: Store, now: PidLoop.TimeVal): YawControl.YawInput {
    YawControl.YawInput(YawControl.MODE_AUTON, GainsIn(regs), now, regs(Yaw), regs(InitialYaw))
  }

  /** The yaw loop of the run is the controller: started in state l, it outputs in each iteration what the
    * controller outputs for the gains, yaws and clock readings of this and all earlier iterations. The
    * clock moves, and the error buffer holds errors.
    */
  ghost predicate Controlled(
    states: seq<State>, labels: seq<Label>, cos: real -> real, l: PidLoop.Loop, clock: nat -> PidLoop.TimeVal)
    requires |states| == |labels| + 1
  {
    var ins := Inputs(states, labels, clock, |labels|);
    && l.Valid() && PidLoop.Within(l, 0.0, 180.0)
    && (forall k :: 0 <= k < |ins| ==>
          PidLoop.TimeStep(YawControl.StateBefore(l, ins, k).prevTime, ins[k].now) >= 1)
    && YawControl.TimeMoves(l, ins)
    && forall n :: 0 <= n < |labels| && ComputesYaw(states[n], labels[n]) ==>
         var k := |Inputs(states, labels, clock, n)|;
         k < |ins| && YawControl.OutputAt(cos, l, ins, k) == Some(SurgeIn(labels[n].choice.values))
  }

  lemma {:induction false} InputsGrow(
    states: seq<State>, labels: seq<Label>, clock: nat -> PidLoop.TimeVal, m: nat, n: nat)
    requires m <= n < |states| == |labels| + 1
    ensures |Inputs(states, labels, clock, m)| <= |Inputs(states, labels, clock, n)|
    ensures forall k :: 0 <= k < |Inputs(states, labels, clock, m)| ==>
              Inputs(states, labels, clock, n)[k] == Inputs(states, labels, clock, m)[k]
  {
    hide ComputesYaw;
    if m < n {
      InputsGrow(states, labels, clock, m, n - 1);
    }
  }

  lemma YawBlocks()
    ensures |Program(YawIteration)| == 7
    ensures Program(YawIteration)[3] == READ_ORIENTATION
    ensures Program(YawIteration)[4] == Reading(InitialOrientationMutex, [InitialPitch, InitialRoll, InitialYaw], false)
    ensures InitialYaw in [InitialPitch, InitialRoll, InitialYaw]
  {
    assert [InitialPitch, InitialRoll, InitialYaw][2] == InitialYaw;
  }

  lemma YawComputes(th: Thread)
    requires Busy(th) && Current(th) == Compute(YawController)
    ensures th.activity == YawIteration && th.pc == 5
  {
  }

  /** The yaws that the loop computes with are angles. */
  lemma ComputesWithAngles(states: seq<State>, labels: seq<Label>, n: nat)
    requires IsRun(states, labels) && Initial(states[0]) && YawsAreAngles(states[0], labels)
    requires n < |labels| && ComputesYaw(states[n], labels[n])
    ensures var regs := states[n].threads[labels[n].t].regs;
            IsAngle(regs(Yaw)) && IsAngle(regs(InitialYaw))
  {
    hide Step, CanStep, Initial, Program, Guard, Began, Remembers, Atomic, READ_ORIENTATION;
    var t := labels[n].t;
    var th := states[n].threads[t];
    YawComputes(th);
    YawBlocks();
    OrientationGuards();
    ReadsOrientation();
    RunHistory(states, labels, n, t);
    ProgramsGuarded(YawIteration, 3);
    ProgramsGuarded(YawIteration, 4);
    ReadsAreWhole(states, labels, n, t, 3, Yaw);
    ReadsAreWhole(states, labels, n, t, 4, InitialYaw);
    YawStaysAngle(states, labels, th.stamps[4]);
    InitialYawStaysAngle(states, labels, th.stamps[5]);
  }

  lemma {:induction false} InputsInRange(
    states: seq<State>, labels: seq<Label>, clock: nat -> PidLoop.TimeVal, n: nat)
    requires IsRun(states, labels) && Initial(states[0]) && YawsAreAngles(states[0], labels) && n < |states|
    ensures YawControl.YawsInRange(Inputs(states, labels, clock, n))
  {
    hide Step, CanStep, Initial, Program, ComputesYaw, YawsAreAngles;
    if n > 0 {
      InputsInRange(states, labels, clock, n - 1);
      if ComputesYaw(states[n - 1], labels[n - 1]) {
        ComputesWithAngles(states, labels, n - 1);
      }
    }
  }

  /** If the yaw loop of a run is the controller, and the sensor publishes angles, all it computes respects
    * the gains it has read.
    */
  lemma ControllerRespectsGains(
    states: seq<State>, labels: seq<Label>, cos: real -> real, l: PidLoop.Loop, clock: nat -> PidLoop.TimeVal)
    requires IsRun(states, labels) && Initial(states[0]) && YawsAreAngles(states[0], labels)
    requires Controlled(states, labels, cos, l, clock)
    ensures YawRespectsGains(states, labels)
  {
    hide Step, CanStep, Initial, Program, YawsAreAngles, Respects;
    hide YawControl.OutputAt, YawControl.TimeMoves, YawControl.YawsInRange, YawControl.StateBefore;
    hide PidLoop.Within, PidLoop.TimeStep;
    var ins := Inputs(states, labels, clock, |labels|);
    InputsInRange(states, labels, clock, |labels|);
    forall n | 0 <= n < |labels| && ComputesYaw(states[n], labels[n])
      ensures Respects(SurgeIn(labels[n].choice.values), GainsIn(states[n].threads[labels[n].t].regs))
    {
      var k, regs := |Inputs(states, labels, clock, n)|, states[n].threads[labels[n].t].regs;
      InputsGrow(states, labels, clock, n + 1, |labels|);
      assert Inputs(states, labels, clock, n + 1)[k] == InputOf(regs, clock(k));
      YawOutputRespects(cos, l, ins, k, regs, labels[n].choice.values);
    }
  }

  /** The whole system with the gains set at start-up: in every interleaving in which the yaw loop is the
    * controller and the sensor publishes angles, the surge pair is the initial one, that of one command,
    * or one between -45.6 and 37.2 with a side at exactly 30.
    */
  lemma ControlledSurgeBounded(
    states: seq<State>, labels: seq<Label>, n: nat,
    cos: real -> real, l: PidLoop.Loop, clock: nat -> PidLoop.TimeVal)
    requires IsRun(states, labels) && Initial(states[0]) && n < |states| && YawsAreAngles(states[0], labels)
    requires Controlled(states, labels, cos, l, clock)
    requires GainsIn(states[0].mem) == START_GAINS && NoGainsCommand(labels)
    ensures var start, r := ThrustIn(states[0].mem), ThrustIn(Atomic(states, labels, n));
            || (r.surgePort == start.surgePort && r.surgeStarboard == start.surgeStarboard)
            || (exists k, c :: 0 <= k < |labels| && Commanded(labels[k], c)
                  && r.surgePort == c.surgePort && r.surgeStarboard == c.surgeStarboard)
            || (-45.6 <= r.surgePort <= 37.2 && -45.6 <= r.surgeStarboard <= 37.2
                && (r.surgePort == 30.0 || r.surgeStarboard == 30.0))
  {
    hide IsRun, Initial, Controlled, YawsAreAngles, YawRespectsGains, Atomic, NoGainsCommand;
    ControllerRespectsGains(states, labels, cos, l, clock);
    StartGainsBoundSurge(states, labels, n);
  }

  // ---------------------------------------------------------------------------------------------
  // Which way the vehicle is steered
  // ---------------------------------------------------------------------------------------------

  /** In step m, before n, thread t has computed what it is about to write in step n. */
  ghost predicate ComputedIn(states: seq<State>, labels: seq<Label>, n: nat, t: nat, m: nat)
    requires n < |states| == |labels| + 1 && t < |states[n].threads|
  {
    && m < n && ComputesYaw(states[m], labels[m]) && labels[m].t == t
    && SurgeIn(states[n].threads[t].regs) == SurgeIn(labels[m].choice.values)
  }

  lemma {:induction false} ComputedBefore(states: seq<State>, labels: seq<Label>, n: nat, t: nat) returns (m: nat)
    requires IsRun(states, labels) && Initial(states[0]) && n < |states| && t < |states[n].threads|
    requires states[n].threads[t].activity == YawIteration && states[n].threads[t].pc == 6
    ensures ComputedIn(states, labels, n, t, m)
  {
    hide Step, CanStep, Program, Initial, SurgeIn, WithComputed, Allowed;
    ComputingBlocks();
    m := 0;
    if n == 0 {
      IdleAtStart(states[0], t);
    } else {
      var s, l := states[n - 1], labels[n - 1];
      StepOthers(s, l, t);
      var th := s.threads[t];
      if l.t == t && !Busy(th) {
        StepBegins(s, l);
      } else if l.t == t {
        StepContinues(s, l);
        StepComputes(s, l);
      }
      if l.t == t && th.pc == 5 {
        YawComputed(th.regs, l.choice.values);
        m := n - 1;
      } else {
        m := ComputedBefore(states, labels, n - 1, t);
      }
    }
  }

  lemma IdleAtStart(s: State, t: nat)
    requires Initial(s) && t < |s.threads|
    ensures !Busy(s.threads[t])
  {
  }

  /** Every surge pair that the yaw loop writes, in every interleaving in which it is the controller and the
    * sensor publishes angles, steers towards a target that the initial orientation held, from a yaw that the
    * orientation held before: the starboard side is the one that differs from 30 if the target lies closer
    * to straight ahead than a positive yaw, or further from it than a negative one; the port side in the
    * mirrored cases; and none otherwise.
    */
  lemma ControlledSteering(
    states: seq<State>, labels: seq<Label>, n: nat,
    cos: real -> real, l: PidLoop.Loop, clock: nat -> PidLoop.TimeVal)
    returns (i: nat, j: nat, steered: real)
    requires IsRun(states, labels) && Initial(states[0]) && n < |labels| && YawsAreAngles(states[0], labels)
    requires Controlled(states, labels, cos, l, clock) && YawControl.CosLike(cos)
    requires CommitsThrust(states[n], labels[n]) && states[n].threads[labels[n].t].activity == YawIteration
    ensures i < j <= n
    ensures var yaw, target := Atomic(states, labels, i)(Yaw), Atomic(states, labels, j)(InitialYaw);
            ActionOf(states[n].threads[labels[n].t])
              == if (yaw > 0.0 && -yaw < target < yaw) || (yaw < 0.0 && (target < yaw || target > -yaw)) then
                   ByYaw(port := 30.0, starboard := steered)
                 else if (yaw < 0.0 && yaw < target < -yaw) || (yaw > 0.0 && (target < -yaw || target > yaw)) then
                   ByYaw(port := steered, starboard := 30.0)
                 else ByYaw(port := 30.0, starboard := 30.0)
  {
    hide Step, CanStep, Initial, Program, Atomic, YawsAreAngles;
    hide YawControl.OutputAt, YawControl.TimeMoves, YawControl.YawsInRange, YawControl.StateBefore, PidLoop.Pid;
    hide PidLoop.Within, PidLoop.TimeStep, YawControl.CosLike;
    var t := labels[n].t;
    ThrustWriters(states[n].threads[t]);
    var m := ComputedBefore(states, labels, n, t);
    var ins, k := Inputs(states, labels, clock, |labels|), |Inputs(states, labels, clock, m)|;
    InputsGrow(states, labels, clock, m + 1, |labels|);
    var regs := states[m].threads[t].regs;
    assert Inputs(states, labels, clock, m + 1)[k] == InputOf(regs, clock(k));
    ComputesWithAngles(states, labels, m);
    i, j := YawMoments(states, labels, m);
    YawControl.SideThatSteers(cos, l, ins, k);
    var value := 30.0 - PidLoop.Pid(ins[k].gains, YawControl.StateBefore(l, ins, k), YawControl.YawTick(ins[k]));
    steered := if value > 75.0 then 75.0 else value;
  }

  /** The moments of which the yaws are that the loop computes with. */
  lemma YawMoments(states: seq<State>, labels: seq<Label>, m: nat) returns (i: nat, j: nat)
    requires IsRun(states, labels) && Initial(states[0])
    requires m < |labels| && ComputesYaw(states[m], labels[m])
    ensures i < j <= m
    ensures states[m].threads[labels[m].t].regs(Yaw) == Atomic(states, labels, i)(Yaw)
    ensures states[m].threads[labels[m].t].regs(InitialYaw) == Atomic(states, labels, j)(InitialYaw)
  {
    hide Step, CanStep, Initial, Program, Guard, Began, Remembers, Atomic, READ_ORIENTATION;
    var t := labels[m].t;
    var th := states[m].threads[t];
    YawComputes(th);
    YawBlocks();
    OrientationGuards();
    ReadsOrientation();
    RunHistory(states, labels, m, t);
    ProgramsGuarded(YawIteration, 3);
    ProgramsGuarded(YawIteration, 4);
    ReadsAreWhole(states, labels, m, t, 3, Yaw);
    ReadsAreWhole(states, labels, m, t, 4, InitialYaw);
    i, j := th.stamps[4], th.stamps[5];
  }
}

/** The depth controller in the state machine: what its loop writes to the shared thrust is what the
  * controller outputs for depths that the shared memory held.
  */
module DepthInTheLoop {
  import opened Wrappers
  import opened SharedState
  import opened Mutexes
  import opened AtomicWrites
  import opened Snapshots
  import opened ThrustHistory
  import opened YawGains
  import PidLoop
  import DepthControl

  predicate ComputesDepth(s: State, l: Label) {
    && l.t < |s.threads| && Busy(s.threads[l.t]) && Current(s.threads[l.t]) == Compute(DepthController)
    && l.choice.Computed?
  }

  /** What the depth loop computes with in the steps before n, its k-th clock reading being clock(k). */
  ghost function Inputs(
    states: seq<State>, labels: seq<Label>, clock: nat -> PidLoop.TimeVal, n: nat): seq<DepthControl.DepthInput>
    requires n < |states| == |labels| + 1
  {
    if n == 0 then []
    else
      var before := Inputs(states, labels, clock, n - 1);
      if ComputesDepth(states[n - 1], labels[n - 1]) then
        before + [InputOf(states[n - 1].threads[labels[n - 1].t].regs, clock(|before|))]
      else before
  }

  function InputOf(regs: Store, now: PidLoop.TimeVal): DepthControl.DepthInput {
    DepthControl.DepthInput(DepthControl.MODE_AUTON_DEPTH, GainsIn(regs), now, regs(DepthFt), regs(DesiredDepth))
  }

  /** The depth loop of the run is the controller: started in state l, it outputs in each iteration what the
    * controller outputs for the gains, depths and clock readings of this and all earlier iterations.
    */
  ghost predicate Controlled(
    states: seq<State>, labels: seq<Label>, l: PidLoop.Loop, clock: nat -> PidLoop.TimeVal)
    requires |states| == |labels| + 1
  {
    var ins := Inputs(states, labels, clock, |labels|);
    && l.Valid() && DepthControl.TimeMoves(l, ins)
    && forall n :: 0 <= n < |labels| && ComputesDepth(states[n], labels[n]) ==>
         var k := |Inputs(states, labels, clock, n)|;
         k < |ins| && DepthControl.OutputAt(l, ins, k) == Some(labels[n].choice.values(HeaveB))
  }

  lemma {:induction false} InputsGrow(
    states: seq<State>, labels: seq<Label>, clock: nat -> PidLoop.TimeVal, m: nat, n: nat)
    requires m <= n < |states| == |labels| + 1
    ensures |Inputs(states, labels, clock, m)| <= |Inputs(states, labels, clock, n)|
    ensures forall k :: 0 <= k < |Inputs(states, labels, clock, m)| ==>
              Inputs(states, labels, clock, n)[k] == Inputs(states, labels, clock, m)[k]
  {
    hide ComputesDepth;
    if m < n {
      InputsGrow(states, labels, clock, m, n - 1);
    }
  }

  lemma DepthBlocks()
    ensures |Program(DepthIteration)| == 7 && Program(DepthIteration)[2] == READ_PID
    ensures Program(DepthIteration)[3] == Reading(DstMutex, [DepthFt], false)
    ensures Program(DepthIteration)[4] == Reading(DesiredOrientationMutex, [DesiredDepth], false)
    ensures DepthFt in [DepthFt] && DesiredDepth in [DesiredDepth]
  {
  }

  lemma DepthComputes(th: Thread)
    requires Busy(th) && Current(th) == Compute(DepthController)
    ensures th.activity == DepthIteration && th.pc == 5
  {
  }

  /** In step m, before n, thread t has computed what it is about to write in step n. */
  ghost predicate ComputedIn(states: seq<State>, labels: seq<Label>, n: nat, t: nat, m: nat)
    requires n < |states| == |labels| + 1 && t < |states[n].threads|
  {
    && m < n && ComputesDepth(states[m], labels[m]) && labels[m].t == t
    && states[n].threads[t].regs(HeaveB) == labels[m].choice.values(HeaveB)
  }

  lemma {:induction false} ComputedBefore(states: seq<State>, labels: seq<Label>, n: nat, t: nat) returns (m: nat)
    requires IsRun(states, labels) && Initial(states[0]) && n < |states| && t < |states[n].threads|
    requires states[n].threads[t].activity == DepthIteration && states[n].threads[t].pc == 6
    ensures ComputedIn(states, labels, n, t, m)
  {
    hide Step, CanStep, Program, Initial, Allowed;
    ComputingBlocks();
    m := 0;
    if n == 0 {
      IdleAtStart(states[0], t);
    } else {
      var s, l := states[n - 1], labels[n - 1];
      StepOthers(s, l, t);
      var th := s.threads[t];
      if l.t == t && !Busy(th) {
        StepBegins(s, l);
      } else if l.t == t {
        StepContinues(s, l);
        StepComputes(s, l);
      }
      if l.t == t && th.pc == 5 {
        m := n - 1;
      } else {
        m := ComputedBefore(states, labels, n - 1, t);
      }
    }
  }

  /** Every heave that the depth loop writes, in every interleaving in which it is the controller, is what the
    * controller outputs for a depth and a later desired depth that the shared memory held.
    */
  lemma ControlledHeave(
    states: seq<State>, labels: seq<Label>, n: nat, l: PidLoop.Loop, clock: nat -> PidLoop.TimeVal)
    returns (i: nat, j: nat, k: nat)
    requires IsRun(states, labels) && Initial(states[0]) && n < |labels| && Controlled(states, labels, l, clock)
    requires CommitsThrust(states[n], labels[n]) && states[n].threads[labels[n].t].activity == DepthIteration
    ensures i < j <= n
    ensures var ins := Inputs(states, labels, clock, |labels|);
            && k < |ins| && ins[k].mode == 3
            && ins[k].depth == Atomic(states, labels, i)(DepthFt)
            && ins[k].desired == Atomic(states, labels, j)(DesiredDepth)
            && ActionOf(states[n].threads[labels[n].t]).ByDepth?
            && DepthControl.OutputAt(l, ins, k) == Some(ActionOf(states[n].threads[labels[n].t]).heave)
  {
    hide Step, CanStep, Initial, Program, Atomic, Began, Remembers, GainsIn;
    hide DepthControl.OutputAt, DepthControl.TimeMoves;
    var t := labels[n].t;
    ThrustWriters(states[n].threads[t]);
    var m := ComputedBefore(states, labels, n, t);
    k := |Inputs(states, labels, clock, m)|;
    InputsGrow(states, labels, clock, m + 1, |labels|);
    assert Inputs(states, labels, clock, m + 1)[k] == InputOf(states[m].threads[t].regs, clock(k));
    i, j := DepthMoments(states, labels, m);
  }

  /** The moments of which the depths are that the loop computes with. */
  lemma DepthMoments(states: seq<State>, labels: seq<Label>, m: nat) returns (i: nat, j: nat)
    requires IsRun(states, labels) && Initial(states[0])
    requires m < |labels| && ComputesDepth(states[m], labels[m])
    ensures i < j <= m
    ensures states[m].threads[labels[m].t].regs(DepthFt) == Atomic(states, labels, i)(DepthFt)
    ensures states[m].threads[labels[m].t].regs(DesiredDepth) == Atomic(states, labels, j)(DesiredDepth)
  {
    hide Step, CanStep, Initial, Program, Guard, Began, Remembers, Atomic;
    var t := labels[m].t;
    var th := states[m].threads[t];
    DepthComputes(th);
    DepthBlocks();
    RunHistory(states, labels, m, t);
    ProgramsGuarded(DepthIteration, 3);
    ProgramsGuarded(DepthIteration, 4);
    ReadsAreWhole(states, labels, m, t, 3, DepthFt);
    ReadsAreWhole(states, labels, m, t, 4, DesiredDepth);
    i, j := th.stamps[4], th.stamps[5];
  }

  /** With kp alone, the vehicle heaves with the sign of that difference of depths. */
  lemma HeavesTowardsDesiredDepth(
    states: seq<State>, labels: seq<Label>, n: nat, l: PidLoop.Loop, clock: nat -> PidLoop.TimeVal)
    returns (i: nat, j: nat, k: nat)
    requires IsRun(states, labels) && Initial(states[0]) && n < |labels| && Controlled(states, labels, l, clock)
    requires CommitsThrust(states[n], labels[n]) && states[n].threads[labels[n].t].activity == DepthIteration
    ensures i < j <= n
    ensures var ins, heave := Inputs(states, labels, clock, |labels|), ActionOf(states[n].threads[labels[n].t]).heave;
            && k < |ins|
            && (ins[k].gains.kp > 0.0 && ins[k].gains.ki == 0.0 == ins[k].gains.kd ==>
                  && (heave > 0.0 <==> Atomic(states, labels, j)(DesiredDepth) > Atomic(states, labels, i)(DepthFt))
                  && (heave < 0.0 <==> Atomic(states, labels, j)(DesiredDepth) < Atomic(states, labels, i)(DepthFt)))
    ensures ActionOf(states[n].threads[labels[n].t]).ByDepth?
  {
    hide Step, CanStep, Initial, Atomic, Inputs, DepthControl.OutputAt, DepthControl.TimeMoves, CommitsThrust;
    i, j, k := ControlledHeave(states, labels, n, l, clock);
    var ins := Inputs(states, labels, clock, |labels|);
    if ins[k].gains.kp > 0.0 && ins[k].gains.ki == 0.0 == ins[k].gains.kd {
      DepthControl.HeaveHasTheSignOfTheDifference(l, ins, k);
    }
  }
}

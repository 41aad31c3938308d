/** Which mode lets whom write thrust. Commands and both loops read the mode in one section and write thrust
  * in a later one; what counts is the mode at the moment of the first.
  */
module ModeGate {
  import opened Wrappers
  import opened SharedState
  import opened Mutexes
  import opened AtomicWrites
  import opened Snapshots
  import opened ThrustHistory
  import opened Quiescence
  import YawControl
  import DepthControl

  /** The numbers of the modes, in the tests of the state machine and in the controllers. */
  lemma ModeNumbers(mode: real)
    ensures Passes(Enabled, mode) <==> mode > 0.0
    ensures Passes(Auton, mode) <==> mode == 2.0
    ensures Passes(AutonDepth, mode) <==> mode == 3.0
    ensures YawControl.MODE_AUTON == 2 && DepthControl.MODE_AUTON_DEPTH == 3
  {
  }

  /** Step b begins an activity on thread t. */
  predicate Begins(labels: seq<Label>, b: nat, t: nat, a: Activity) {
    b < |labels| && labels[b].t == t && labels[b].choice.Begin? && labels[b].choice.activity == a
  }

  /** The latest activity of the thread is the one begun by step b. */
  predicate Doing(th: Thread, b: nat) {
    th.stamps != [] && th.stamps[0] == b + 1
  }

  /** A thread that has gone past its mode test has passed it. */
  predicate PastTest(th: Thread) {
    Gate(th.activity).Some? && Busy(th) && th.pc >= 2 ==> Passes(Gate(th.activity).value, th.regs(Mode))
  }

  lemma StepKeepsMode(s: State, l: Label)
    requires CanStep(s, l) && Busy(s.threads[l.t]) && Gate(s.threads[l.t].activity).Some? && s.threads[l.t].pc > 0
    ensures l.t < |Step(s, l).threads| && Step(s, l).threads[l.t].regs(Mode) == s.threads[l.t].regs(Mode)
  {
    assert l.t < |s.threads|;
    hide Step, CanStep, Program;
    GatedPrograms(s.threads[l.t].activity);
    assert READ_MODE.fields[0] == Mode;
    StepKeeps(s, l, 0);
  }

  /** The last step of a thrust-writing activity completes its write, if the mode it has read enables it; no
    * other step of it does.
    */
  lemma LastStep(s: State, l: Label)
    requires CanStep(s, l) && PlaceOk(s.threads[l.t]) && PastTest(s.threads[l.t])
    requires Busy(s.threads[l.t]) && Gate(s.threads[l.t].activity).Some?
    ensures l.t < |Step(s, l).threads| && PastTest(Step(s, l).threads[l.t])
    ensures var th, th' := s.threads[l.t], Step(s, l).threads[l.t];
            && (CommitsThrust(s, l) <==> !Busy(th') && Passes(Gate(th.activity).value, th'.regs(Mode)))
            && (!Busy(th') ==> th.pc > 0)
  {
    hide Program, Allowed, WithComputed, Passes;
    var th := s.threads[l.t];
    GatedPrograms(th.activity);
    GatedWrites(th);
    if th.pc > 0 {
      StepKeepsMode(s, l);
    }
  }

  /** What the activity begun by step b has written by step n. */
  ghost predicate Progress(states: seq<State>, labels: seq<Label>, b: nat, n: nat, t: nat, a: Activity)
    requires b < n < |states| == |labels| + 1 && t < |states[n].threads| && Gate(a).Some?
  {
    var th := states[n].threads[t];
    && th.activity == a && PastTest(th) && (!Busy(th) ==> |th.stamps| > 1)
    && WritesBy(states, labels, b + 1, n, t)
       == if !Busy(th) && Passes(Gate(a).value, th.regs(Mode)) then 1 else 0
  }

  /** A thread is doing the activity of step b from then on, until it begins something else. */
  lemma DoingBefore(states: seq<State>, labels: seq<Label>, b: nat, n: nat, t: nat)
    requires IsRun(states, labels) && Initial(states[0]) && b + 1 < n < |states| && t < |states[n].threads|
    requires Doing(states[n].threads[t], b)
    ensures t < |states[n - 1].threads| && Doing(states[n - 1].threads[t], b)
    ensures labels[n - 1].t == t ==> Busy(states[n - 1].threads[t])
  {
    hide Step, CanStep, Program, Initial, Began, Remembers;
    var s, l := states[n - 1], labels[n - 1];
    StepOthers(s, l, t);
    RunHistory(states, labels, n - 1, t);
    if l.t == t {
      if Busy(s.threads[t]) {
        StepContinues(s, l);
      } else {
        StepBegins(s, l);
      }
    }
  }

  lemma {:induction false} RunProgress(states: seq<State>, labels: seq<Label>, b: nat, n: nat, t: nat, a: Activity)
    requires IsRun(states, labels) && Initial(states[0]) && b < n < |states| && t < |states[n].threads|
    requires Begins(labels, b, t, a) && Gate(a).Some? && Doing(states[n].threads[t], b)
    ensures Progress(states, labels, b, n, t, a)
  {
    hide Step, CanStep, Program, Initial, Passes, CommitsThrust, Began, Remembers, Gate;
    if n == b + 1 {
      BeginningProgress(states, labels, b, t, a);
    } else {
      DoingBefore(states, labels, b, n, t);
      RunProgress(states, labels, b, n - 1, t, a);
      RunExclusive(states, labels, n - 1);
      StepOthers(states[n - 1], labels[n - 1], t);
      if labels[n - 1].t == t {
        RunHistory(states, labels, n - 1, t);
        LastStep(states[n - 1], labels[n - 1]);
        StepContinues(states[n - 1], labels[n - 1]);
      }
    }
  }

  lemma BeginningProgress(states: seq<State>, labels: seq<Label>, b: nat, t: nat, a: Activity)
    requires IsRun(states, labels) && b < |labels| && t < |states[b + 1].threads|
    requires Begins(labels, b, t, a) && Gate(a).Some?
    ensures Progress(states, labels, b, b + 1, t, a)
  {
    hide Program;
    GatedPrograms(a);
  }

  /** The mode that the current activity of a thread has read: the shared one at the moment of its first
    * unlock.
    */
  ghost function ModeRead(states: seq<State>, labels: seq<Label>, n: nat, t: nat): real
    requires n < |states| == |labels| + 1 && t < |states[n].threads|
  {
    var stamps := states[n].threads[t].stamps;
    if |stamps| > 1 && stamps[1] <= n then Atomic(states, labels, stamps[1])(Mode) else 0.0
  }

  lemma ReadsMode(states: seq<State>, labels: seq<Label>, n: nat, t: nat)
    requires IsRun(states, labels) && Initial(states[0]) && n < |states| && t < |states[n].threads|
    requires Gate(states[n].threads[t].activity).Some? && |states[n].threads[t].stamps| > 1
    ensures states[n].threads[t].stamps[1] <= n
    ensures states[n].threads[t].regs(Mode) == ModeRead(states, labels, n, t)
  {
    hide Step, CanStep, Program, Initial, Atomic;
    var a := states[n].threads[t].activity;
    GatedPrograms(a);
    assert READ_MODE.fields[0] == Mode;
    ProgramsGuarded(a, 0);
    ReadsAreWhole(states, labels, n, t, 0, Mode);
  }

  /** The activity begun by step b is finished. */
  predicate Finished(s: State, b: nat, t: nat) {
    t < |s.threads| && Doing(s.threads[t], b) && !Busy(s.threads[t])
  }

  /** In every interleaving, a finished thrust command has completed one thrust write if the mode was above 0
    * at the moment it read it, a finished yaw iteration if it was 2, a finished depth iteration if it was 3;
    * otherwise it has completed none.
    */
  lemma FinishedWrites(states: seq<State>, labels: seq<Label>, b: nat, n: nat, t: nat, a: Activity)
    requires IsRun(states, labels) && Initial(states[0]) && b < n < |states|
    requires Begins(labels, b, t, a) && Finished(states[n], b, t)
    ensures a == SetThrust ==>
              WritesBy(states, labels, b + 1, n, t) == if ModeRead(states, labels, n, t) > 0.0 then 1 else 0
    ensures a == YawIteration ==>
              WritesBy(states, labels, b + 1, n, t) == if ModeRead(states, labels, n, t) == 2.0 then 1 else 0
    ensures a == DepthIteration ==>
              WritesBy(states, labels, b + 1, n, t) == if ModeRead(states, labels, n, t) == 3.0 then 1 else 0
    ensures a in {SetThrust, YawIteration, DepthIteration} ==> |states[n].threads[t].stamps| > 1
  {
    hide Step, CanStep, Program, Initial, Atomic, ModeRead, CommitsThrust;
    if Gate(a).Some? {
      RunProgress(states, labels, b, n, t, a);
      ReadsMode(states, labels, n, t);
    }
  }

  /** In every interleaving, a thread goes beyond its mode test only with the mode that lets it: none that
    * has read another computes or writes anything.
    */
  lemma OnlyEnabledProceed(states: seq<State>, labels: seq<Label>, n: nat, t: nat)
    requires IsRun(states, labels) && Initial(states[0]) && n < |states| && t < |states[n].threads|
    requires Busy(states[n].threads[t]) && states[n].threads[t].pc >= 2
    ensures states[n].threads[t].activity == SetThrust ==> ModeRead(states, labels, n, t) > 0.0
    ensures states[n].threads[t].activity == YawIteration ==> ModeRead(states, labels, n, t) == 2.0
    ensures states[n].threads[t].activity == DepthIteration ==> ModeRead(states, labels, n, t) == 3.0
  {
    hide Step, CanStep, Program, Initial, Atomic, ModeRead, CommitsThrust, Remembers, Keeps;
    var th := states[n].threads[t];
    if Gate(th.activity).Some? {
      RunHistory(states, labels, n, t);
      var b := th.stamps[0] - 1;
      RunProgress(states, labels, b, n, t, th.activity);
      ReadsMode(states, labels, n, t);
    }
  }
}

/** What disabling the vehicle guarantees. The mode is checked in one critical section and the thrust is
  * written in another, so a thread that has passed its test may still write; but each at most once.
  */
module Quiescence {
  import opened Wrappers
  import opened SharedState
  import opened Mutexes
  import opened AtomicWrites
  import opened Snapshots
  import opened ThrustHistory

  /** The mode test before a thrust write. */
  function Gate(a: Activity): Option<ModeTest> {
    match a
    case SetThrust => Some(Enabled)
    case YawIteration => Some(Auton)
    case DepthIteration => Some(AutonDepth)
    case _ => None
  }

  /** The thread has read a mode that lets it write thrust, and has not yet done so. */
  predicate Armed(th: Thread) {
    && Busy(th) && Gate(th.activity).Some?
    && (th.pc == 0 ==> th.at.Inside? && th.at.done >= 1)
    && (th.pc <= 1 ==> Passes(Gate(th.activity).value, th.regs(Mode)))
  }

  function ArmedWeight(th: Thread): int {
    if Armed(th) then 1 else 0
  }

  function ArmedCount(s: State): int {
    Total(s.threads, ArmedWeight)
  }

  lemma GatedPrograms(a: Activity)
    requires Gate(a).Some?
    ensures |Program(a)| == if a == SetThrust then 3 else 7
    ensures Program(a)[0] == READ_MODE && Program(a)[1] == Test(Gate(a).value)
    ensures READ_MODE.Reading? && READ_MODE.fields == [Mode] && !READ_MODE.send
  {
  }

  /** With mode 0 no test can be passed any more: no step arms a thread, and a thread that completes a
    * thrust write was armed and no longer is.
    */
  lemma StepArmed(s: State, l: Label)
    requires CanStep(s, l) && s.mem(Mode) <= 0.0
    ensures l.t < |s.threads| == |Step(s, l).threads| && Step(s, l).threads == s.threads[l.t := Step(s, l).threads[l.t]]
    ensures Armed(Step(s, l).threads[l.t]) ==> Armed(s.threads[l.t])
    ensures CommitsThrust(s, l) ==> Armed(s.threads[l.t]) && !Armed(Step(s, l).threads[l.t])
  {
    hide Program, Allowed, WithComputed;
    var th := s.threads[l.t];
    if Gate(th.activity).Some? {
      GatedPrograms(th.activity);
    }
    if CommitsThrust(s, l) {
      ThrustWriters(th);
    }
  }

  /** A step that changes the thrust in memory is by an armed thread. */
  lemma StepWritesThrust(s: State, l: Label)
    requires CanStep(s, l) && ThrustIn(Step(s, l).mem) != ThrustIn(s.mem)
    ensures l.t < |s.threads| && Armed(s.threads[l.t])
  {
    hide Program, Passes, Allowed, WithComputed, Guard;
    var th := s.threads[l.t];
    CurrentGuarded(th);
    assert Guard(Current(th).moves[th.at.done].to) == Current(th).m;
    CommandGuards();
    ThrustWriters(th);
  }

  /** The vehicle is and stays disabled from step `start` on. */
  ghost predicate Disabled(states: seq<State>, start: nat) {
    forall n :: start <= n < |states| ==> states[n].mem(Mode) <= 0.0
  }

  /** No mode command is being carried out. */
  predicate NoModeCommand(s: State) {
    forall t :: 0 <= t < |s.threads| && Busy(s.threads[t]) ==> s.threads[t].activity != SetMode
  }

  lemma ModeWriters(a: Activity, pc: nat)
    requires pc < |Program(a)| && Program(a)[pc].Writing? && Program(a)[pc].m == ModeMutex
    ensures a == SetMode
  {
  }

  lemma StepWithoutModeCommand(s: State, l: Label)
    requires CanStep(s, l) && NoModeCommand(s) && !(l.choice.Begin? && l.choice.activity == SetMode)
    ensures NoModeCommand(Step(s, l)) && Step(s, l).mem(Mode) == s.mem(Mode)
  {
    hide Program, Guard, Passes, Allowed, WithComputed;
    var th := s.threads[l.t];
    if Busy(th) {
      StepContinues(s, l);
      if Current(th).Writing? {
        CurrentGuarded(th);
        CommandGuards();
        if Current(th).m == ModeMutex {
          ModeWriters(th.activity, th.pc);
        }
      }
    }
    forall t | 0 <= t < |s.threads|
      ensures t != l.t ==> Step(s, l).threads[t] == s.threads[t]
    {
      StepOthers(s, l, t);
    }
  }

  /** A caller's way to know: the mode is at most 0, no mode command is under way, and none is begun. */
  lemma {:induction false} DisabledWithoutModeCommands(states: seq<State>, labels: seq<Label>, start: nat, n: nat)
    requires IsRun(states, labels) && start <= n < |states|
    requires states[start].mem(Mode) <= 0.0 && NoModeCommand(states[start])
    requires forall k :: start <= k < n ==> !(labels[k].choice.Begin? && labels[k].choice.activity == SetMode)
    ensures states[n].mem(Mode) <= 0.0 && NoModeCommand(states[n])
    ensures n == |labels| ==> Disabled(states, start)
  {
    hide Step, CanStep, NoModeCommand;
    if n > start {
      DisabledWithoutModeCommands(states, labels, start, n - 1);
      StepWithoutModeCommand(states[n - 1], labels[n - 1]);
    }
    if n == |labels| {
      forall k | start <= k < |states|
        ensures states[k].mem(Mode) <= 0.0
      {
        if k < n {
          DisabledWithoutModeCommands(states, labels, start, k);
        }
      }
    }
  }

  /** The thrust writes that thread t completes from step `start` to step n. */
  ghost function WritesBy(states: seq<State>, labels: seq<Label>, start: nat, n: nat, t: nat): nat
    requires start <= n < |states| == |labels| + 1
  {
    if n == start then 0
    else WritesBy(states, labels, start, n - 1, t)
         + if CommitsThrust(states[n - 1], labels[n - 1]) && labels[n - 1].t == t then 1 else 0
  }

  /** Once the vehicle is disabled, a thread that had passed its mode test completes at most one more
    * thrust write, and any other thread none.
    */
  lemma {:induction false} AtMostOneMoreWrite(states: seq<State>, labels: seq<Label>, start: nat, n: nat, t: nat)
    requires IsRun(states, labels) && start <= n < |states| && Disabled(states, start)
    requires t < |states[start].threads|
    ensures t < |states[n].threads|
    ensures WritesBy(states, labels, start, n, t) + ArmedWeight(states[n].threads[t])
         <= ArmedWeight(states[start].threads[t])
  {
    hide Step, CanStep, Armed, CommitsThrust;
    if n > start {
      AtMostOneMoreWrite(states, labels, start, n - 1, t);
      StepArmed(states[n - 1], labels[n - 1]);
    }
  }

  /** All threads together: the completed writes are paid for by threads that were armed. */
  lemma {:induction false} MoreWritesBounded(states: seq<State>, labels: seq<Label>, start: nat, n: nat)
    requires IsRun(states, labels) && start <= n < |states| && Disabled(states, start)
    ensures |Actions(states, labels, n)| + ArmedCount(states[n])
         <= |Actions(states, labels, start)| + ArmedCount(states[start])
    ensures ArmedCount(states[n]) >= 0
  {
    hide Step, CanStep, Armed, CommitsThrust, Total;
    TotalNonNegative(states[n].threads, ArmedWeight);
    if n > start {
      MoreWritesBounded(states, labels, start, n - 1);
      StepArmed(states[n - 1], labels[n - 1]);
      TotalUpdate(states[n - 1].threads, labels[n - 1].t, states[n].threads[labels[n - 1].t], ArmedWeight);
    }
  }

  lemma {:induction false} NoneArmed(threads: seq<Thread>)
    requires Total(threads, ArmedWeight) == 0
    ensures forall t :: 0 <= t < |threads| ==> !Armed(threads[t])
  {
    hide Armed;
    if threads != [] {
      TotalNonNegative(threads[1..], ArmedWeight);
      NoneArmed(threads[1..]);
      forall t | 0 <= t < |threads|
        ensures !Armed(threads[t])
      {
        if t > 0 {
          assert threads[t] == threads[1..][t - 1];
        }
      }
    }
  }

  /** When no thread is armed any more the thrust is constant for ever. */
  lemma {:induction false} ThrustFrozen(states: seq<State>, labels: seq<Label>, start: nat, n: nat)
    requires IsRun(states, labels) && start <= n < |states| && Disabled(states, start)
    requires ArmedCount(states[start]) == 0
    ensures ArmedCount(states[n]) == 0
    ensures ThrustIn(states[n].mem) == ThrustIn(states[start].mem)
  {
    hide Step, CanStep, Armed, ThrustIn, Total;
    if n > start {
      ThrustFrozen(states, labels, start, n - 1);
      MoreWritesBounded(states, labels, n - 1, n);
      NoneArmed(states[n - 1].threads);
      if ThrustIn(states[n].mem) != ThrustIn(states[n - 1].mem) {
        StepWritesThrust(states[n - 1], labels[n - 1]);
      }
    }
  }

  // ---------------------------------------------------------------------------------------------
  // The sender comes to rest
  // ---------------------------------------------------------------------------------------------

  /** 1 when the sender has something new to transmit. */
  ghost function Unsent(states: seq<State>, labels: seq<Label>, n: nat): nat
    requires n < |states| == |labels| + 1
  {
    if states[n].prev != ThrustIn(Atomic(states, labels, n)) then 1 else 0
  }

  /** A transmission settles the sender; only a completed write unsettles it. */
  lemma StepUnsent(states: seq<State>, labels: seq<Label>, n: nat)
    requires IsRun(states, labels) && Initial(states[0]) && n < |labels|
    ensures |states[n + 1].wire| + Unsent(states, labels, n + 1)
         <= |states[n].wire| + Unsent(states, labels, n) + if CommitsThrust(states[n], labels[n]) then 1 else 0
    ensures Sends(states[n], labels[n]) ==> Unsent(states, labels, n + 1) == 0
    ensures !CommitsThrust(states[n], labels[n]) && Unsent(states, labels, n) == 0 ==>
              Unsent(states, labels, n + 1) == 0
  {
    hide Step, CanStep, Initial, ThrustIn, CommitsThrust, Committed, Sends;
    var s, l := states[n], labels[n];
    CommittedThrust(s, l, Atomic(states, labels, n));
    StepSends(s, l);
    if Sends(s, l) {
      SenderReadsAtomic(states, labels, n);
      NotBoth(s, l);
    }
  }

  lemma NotBoth(s: State, l: Label)
    requires Sends(s, l)
    ensures !CommitsThrust(s, l)
  {
    hide Program;
  }

  /** Once the vehicle is disabled, the sender transmits at most once for each thread that was armed,
    * and once more for what it had not yet transmitted.
    */
  lemma {:induction false} MoreTransmissionsBounded(states: seq<State>, labels: seq<Label>, start: nat, n: nat)
    requires IsRun(states, labels) && Initial(states[0]) && start <= n < |states| && Disabled(states, start)
    ensures |states[n].wire| + Unsent(states, labels, n) + ArmedCount(states[n])
         <= |states[start].wire| + Unsent(states, labels, start) + ArmedCount(states[start])
  {
    hide Step, CanStep, Initial, Armed, CommitsThrust, Unsent, Total;
    if n > start {
      MoreTransmissionsBounded(states, labels, start, n - 1);
      StepUnsent(states, labels, n - 1);
      StepArmed(states[n - 1], labels[n - 1]);
      TotalUpdate(states[n - 1].threads, labels[n - 1].t, states[n].threads[labels[n - 1].t], ArmedWeight);
    }
  }

  /** The end of it: once no thread is armed and the sender has compared once more, it holds the thrust
    * in memory for ever and never transmits again.
    */
  lemma {:induction false} SenderRests(states: seq<State>, labels: seq<Label>, start: nat, tick: nat, n: nat)
    requires IsRun(states, labels) && Initial(states[0]) && Disabled(states, start)
    requires start <= tick < n < |states| && ArmedCount(states[start]) == 0
    requires Sends(states[tick], labels[tick])
    ensures Unsent(states, labels, n) == 0 && states[n].wire == states[tick + 1].wire
    ensures states[n].prev == ThrustIn(states[n].mem)
  {
    hide Step, CanStep, Initial, Armed, Unsent, CommitsThrust, Sends, ThrustIn, Total;
    ThrustFrozen(states, labels, start, n);
    ThrustFrozen(states, labels, start, n - 1);
    NoneArmedSettled(states, labels, n);
    ThrustIsReplay(states, labels, n);
    NoneArmed(states[n - 1].threads);
    StepUnsent(states, labels, n - 1);
    StepSends(states[n - 1], labels[n - 1]);
    StepArmed(states[n - 1], labels[n - 1]);
    if n - 1 > tick {
      SenderRests(states, labels, start, tick, n - 1);
    }
    UnsentMeans(states, labels, n);
  }

  lemma UnsentMeans(states: seq<State>, labels: seq<Label>, n: nat)
    requires n < |states| == |labels| + 1
    ensures Unsent(states, labels, n) == 0 <==> states[n].prev == ThrustIn(Atomic(states, labels, n))
  {
  }

  /** While no thread is armed, none is writing thrust. */
  lemma NoneArmedSettled(states: seq<State>, labels: seq<Label>, n: nat)
    requires IsRun(states, labels) && Initial(states[0]) && n < |states| && ArmedCount(states[n]) == 0
    ensures ThrustSettled(states[n])
  {
    hide Step, CanStep, Initial, Program, Passes, Total;
    RunExclusive(states, labels, n);
    NoneArmed(states[n].threads);
    match states[n].holder(ThrustMutex)
    case None =>
    case Some(t) =>
      var th := states[n].threads[t];
      assert Holds(th, ThrustMutex);
      if Current(th).Writing? {
        ThrustWriters(th);
      }
  }

  // ---------------------------------------------------------------------------------------------
  // The bound is exact
  // ---------------------------------------------------------------------------------------------

  /** No other thread holds a mutex, except perhaps that of the mode. */
  ghost predicate Alone(s: State, t: nat) {
    forall m: Mutex :: m != ModeMutex ==> s.holder(m) == None || s.holder(m) == Some(t)
  }

  lemma GatedWrites(th: Thread)
    requires Busy(th) && Gate(th.activity).Some?
    ensures Current(th).Writing? <==> th.pc == |Program(th.activity)| - 1
    ensures Current(th).Writing? ==> Current(th).m == ThrustMutex
    ensures Current(th).Test? ==> th.pc == 1
    ensures th.pc >= 2 && IsSection(Current(th)) ==> Current(th).m != ModeMutex
  {
  }

  /** A section of another mutex does not touch the mode. */
  lemma ModeUntouched(s: State, l: Label)
    requires CanStep(s, l) && PlaceOk(s.threads[l.t]) && Busy(s.threads[l.t])
    requires Current(s.threads[l.t]).Writing? ==> Current(s.threads[l.t]).m != ModeMutex
    ensures Step(s, l).mem(Mode) == s.mem(Mode)
  {
    hide Program, Passes, Allowed, WithComputed;
    var th := s.threads[l.t];
    if Current(th).Writing? {
      CurrentGuarded(th);
      CommandGuards();
    }
  }

  lemma StepAlone(s: State, t: nat)
    requires Exclusive(s) && Alone(s, t) && t < |s.threads| && Armed(s.threads[t])
    ensures var l := Continue(s, t);
            && CanStep(s, l) && !l.choice.Begin?
            && Step(s, l).mem(Mode) == s.mem(Mode)
  {
    hide Program, Step;
    var th := s.threads[t];
    assert PlaceOk(th);
    assert forall m: Mutex :: Holds(th, m) <==> s.holder(m) == Some(t);
    GatedPrograms(th.activity);
    GatedWrites(th);
    ModeUntouched(s, Continue(s, t));
  }

  lemma StaysArmed(s: State, l: Label)
    requires CanStep(s, l) && PlaceOk(s.threads[l.t]) && Armed(s.threads[l.t]) && !CommitsThrust(s, l)
    ensures l.t < |Step(s, l).threads| && Armed(Step(s, l).threads[l.t])
  {
    hide Program, Allowed, WithComputed;
    var th := s.threads[l.t];
    GatedPrograms(th.activity);
    GatedWrites(th);
  }

  /** A thread that holds a mutex goes on to release it, without touching the mode or other threads. */
  lemma StepOtherHolder(s: State, t: nat, m: Mutex)
    requires Exclusive(s) && t < |s.threads| && m != ModeMutex && s.holder(m).Some? && s.holder(m) != Some(t)
    ensures var l := Label(s.holder(m).value, Go);
            && CanStep(s, l) && Step(s, l).mem(Mode) == s.mem(Mode)
            && t < |Step(s, l).threads| && Step(s, l).threads[t] == s.threads[t]
  {
    hide Program, Step;
    var l := Label(s.holder(m).value, Go);
    assert Holds(s.threads[l.t], m);
    ModeUntouched(s, l);
    StepOthers(s, l, t);
  }

  /** The next step towards a thrust write by t. */
  lemma NextStep(s: State, t: nat) returns (l: Label)
    requires Exclusive(s) && t < |s.threads| && Armed(s.threads[t])
    ensures CanStep(s, l) && !l.choice.Begin? && Step(s, l).mem(Mode) == s.mem(Mode)
    ensures t < |Step(s, l).threads|
    ensures (l.t == t && CommitsThrust(s, l)) || Armed(Step(s, l).threads[t])
    ensures Step(s, l).threads[t].activity == s.threads[t].activity
  {
    hide Program, Step, CanStep, CommitsThrust;
    if Alone(s, t) {
      l := Continue(s, t);
      StepAlone(s, t);
      StepOthers(s, l, t);
      StepContinues(s, l);
      assert PlaceOk(s.threads[t]);
      if !CommitsThrust(s, l) {
        StaysArmed(s, l);
      }
    } else {
      var m: Mutex :| m != ModeMutex && s.holder(m).Some? && s.holder(m) != Some(t);
      l := Label(s.holder(m).value, Go);
      StepOtherHolder(s, t, m);
    }
  }

  lemma TotalWorkDecreases(s: State, l: Label)
    requires Exclusive(s) && CanStep(s, l) && !l.choice.Begin?
    ensures 0 <= Total(Step(s, l).threads, Work) < Total(s.threads, Work)
  {
    hide Program, Step, CanStep, Work, PlaceOk;
    StepExclusive(s, l);
    StepWork(s, l);
    TotalUpdate(s.threads, l.t, Step(s, l).threads[l.t], Work);
    forall u | 0 <= u < |Step(s, l).threads|
      ensures Work(Step(s, l).threads[u]) >= 0
    {
      WorkNonNegative(Step(s, l).threads[u]);
    }
    TotalNonNegative(Step(s, l).threads, Work);
  }

  /** The bound is attained in every reachable state: an armed thread can complete its write, whatever
    * the mode has become in the meantime, with no new activity begun and the mode not touched.
    */
  lemma {:induction false} ArmedCanWrite(s: State, t: nat) returns (states: seq<State>, labels: seq<Label>)
    requires Exclusive(s) && t < |s.threads| && Armed(s.threads[t])
    ensures IsRun(states, labels) && states[0] == s && labels != []
    ensures forall k :: 0 <= k < |labels| ==> !labels[k].choice.Begin?
    ensures forall k :: 0 <= k < |states| ==> states[k].mem(Mode) == s.mem(Mode)
    ensures labels[|labels| - 1].t == t && CommitsThrust(states[|labels| - 1], labels[|labels| - 1])
    ensures states[|labels| - 1].threads[t].activity == s.threads[t].activity
    decreases Total(s.threads, Work)
  {
    hide Program, Step, CanStep, CommitsThrust, Exclusive, Armed, Total;
    var l := NextStep(s, t);
    StepExclusive(s, l);
    if l.t == t && CommitsThrust(s, l) {
      states, labels := [s, Step(s, l)], [l];
    } else {
      TotalWorkDecreases(s, l);
      var later, next := ArmedCanWrite(Step(s, l), t);
      states, labels := [s] + later, [l] + next;
      assert states[|labels| - 1] == later[|next| - 1];
    }
  }
}

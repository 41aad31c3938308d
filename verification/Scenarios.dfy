/** Two runs of the system as it starts up, that show what its locking does not prevent. */
module Scenarios {
  import opened Wrappers
  import opened Thrusts
  import opened SharedState
  import opened Mutexes
  import opened AtomicWrites
  import opened Commands
  import opened ThrustHistory
  import opened Quiescence
  import opened YawGains
  import PidLoop

  /** The memory as src/main.cpp sets it up. */
  function StartMemory(): Store {
    (f: Field) =>
      match f
      case Mode => 1.0
      case Kp => 0.18
      case Ki => 0.01
      case Kd => 0.04
      case _ => 0.0
  }

  function IdleThread(): Thread {
    Thread(GetPosition, 1, Outside, _ => 0.0, [])
  }

  /** The system at start-up, with n threads that have nothing to do yet. */
  function Startup(n: nat): State {
    State(StartMemory(), _ => None, seq(n, _ => IdleThread()), NO_THRUST, [], 0)
  }

  lemma StartupIsInitial(n: nat)
    ensures Initial(Startup(n)) && |Startup(n).threads| == n
    ensures Startup(n).mem(Mode) == 1.0 && GainsIn(Startup(n).mem) == START_GAINS == PidLoop.Gains(0.18, 0.01, 0.04)
    ensures forall f :: f !in {Mode, Kp, Ki, Kd} ==> Startup(n).mem(f) == 0.0
  {
  }

  // ---------------------------------------------------------------------------------------------
  // Whole sections
  // ---------------------------------------------------------------------------------------------

  /** A thread's variables after it has read some fields. */
  function Fetched(regs: Store, mem: Store, fields: seq<Field>): Store {
    if fields == [] then regs
    else
      var f := fields[|fields| - 1];
      Put(Fetched(regs, mem, fields[..|fields| - 1]), f, mem(f))
  }

  /** The run r ends in state `end`, began no activity and was by thread t alone. */
  ghost predicate Solo(states: seq<State>, labels: seq<Label>, s: State, end: State, t: nat) {
    && IsRun(states, labels) && states[0] == s && states[|labels|] == end
    && forall k :: 0 <= k < |labels| ==> labels[k] == Label(t, Go)
  }

  /** A state reached from s in which t has entered its section and made k of its accesses. */
  function Entered(s: State, t: nat, k: nat): State
    requires t < |s.threads| && Busy(s.threads[t]) && IsSection(Current(s.threads[t]))
    requires Current(s.threads[t]).Reading? ==> k <= |Current(s.threads[t]).fields|
    requires Current(s.threads[t]).Writing? ==> k <= |Current(s.threads[t]).moves|
  {
    var th := s.threads[t];
    var b := Current(th);
    State(if b.Writing? then Moved(s.mem, th.regs, b.moves[..k]) else s.mem,
          SetHolder(s.holder, b.m, Some(t)),
          s.threads[t := th.(at := Inside(k),
                             regs := if b.Reading? then Fetched(th.regs, s.mem, b.fields[..k]) else th.regs)],
          s.prev, s.wire, s.now + 1 + k)
  }

  lemma {:induction false} Enters(s: State, t: nat, k: nat) returns (states: seq<State>, labels: seq<Label>)
    requires t < |s.threads| && Busy(s.threads[t]) && IsSection(Current(s.threads[t]))
    requires s.threads[t].at.Outside? && s.holder(Current(s.threads[t]).m) == None
    requires Current(s.threads[t]).Reading? ==> k <= |Current(s.threads[t]).fields|
    requires Current(s.threads[t]).Writing? ==> k <= |Current(s.threads[t]).moves|
    ensures Solo(states, labels, s, Entered(s, t, k), t) && |labels| == k + 1
  {
    hide Program, Step, CanStep;
    var th, l := s.threads[t], Label(t, Go);
    var b := Current(th);
    if k == 0 {
      Locks(s, t);
      states, labels := [s, Step(s, l)], [l];
    } else {
      states, labels := Enters(s, t, k - 1);
      var last := Entered(s, t, k - 1);
      if b.Reading? {
        Reads(last, t);
        assert b.fields[..k][..k - 1] == b.fields[..k - 1];
      } else {
        Writes(last, t);
        assert b.moves[..k][..k - 1] == b.moves[..k - 1];
      }
      assert last.threads[t := Step(last, l).threads[t]] == s.threads[t := Step(last, l).threads[t]];
      states, labels := states + [Step(last, l)], labels + [l];
    }
  }

  lemma Joins(states: seq<State>, labels: seq<Label>, later: seq<State>, next: seq<Label>)
    requires IsRun(states, labels) && IsRun(later, next) && states[|labels|] == later[0]
    ensures IsRun(states + later[1..], labels + next)
    ensures (states + later[1..])[0] == states[0] && (states + later[1..])[|labels| + |next|] == later[|next|]
    ensures forall k :: 0 <= k <= |next| ==> (states + later[1..])[|labels| + k] == later[k]
  {
    hide Step, CanStep;
    var whole, all := states + later[1..], labels + next;
    forall n | 0 <= n < |all|
      ensures CanStep(whole[n], all[n]) && whole[n + 1] == Step(whole[n], all[n])
    {
      if n >= |labels| {
        assert whole[n] == later[n - |labels|] && whole[n + 1] == later[n - |labels| + 1];
      }
    }
  }

  lemma Extends(states: seq<State>, labels: seq<Label>, l: Label)
    requires IsRun(states, labels) && CanStep(states[|labels|], l)
    ensures IsRun(states + [Step(states[|labels|], l)], labels + [l])
  {
    hide Step, CanStep;
  }

  /** A thread begins an activity and makes the first k accesses of its first section. */
  lemma BeginsAndEnters(s: State, t: nat, a: Activity, args: Store, k: nat)
      returns (states: seq<State>, labels: seq<Label>)
    requires t < |s.threads| && !Busy(s.threads[t]) && Admissible(a, args)
    requires Program(a) != [] && IsSection(Program(a)[0]) && s.holder(Program(a)[0].m) == None
    requires Program(a)[0].Reading? ==> k <= |Program(a)[0].fields|
    requires Program(a)[0].Writing? ==> k <= |Program(a)[0].moves|
    ensures IsRun(states, labels) && states[0] == s && |labels| == k + 2
    ensures labels[0] == Label(t, Begin(a, args)) && forall j :: 0 < j < |labels| ==> labels[j] == Label(t, Go)
    ensures states[|labels|] == Entered(WithThread(s, t, Thread(a, 0, Outside, args, [s.now + 1])), t, k)
  {
    hide Program, Step, CanStep, Entered;
    var begin := Label(t, Begin(a, args));
    BeginsWith(s, t, a, args);
    var s1 := Step(s, begin);
    var later, next := Enters(s1, t, k);
    Joins([s, s1], [begin], later, next);
    states, labels := [s, s1] + later[1..], [begin] + next;
  }

  // ---------------------------------------------------------------------------------------------
  // A thrust write after the vehicle has been disabled
  // ---------------------------------------------------------------------------------------------

  function ThrustArguments(c: Thrust): Store {
    (f: Field) =>
      match f
      case SurgePort => c.surgePort
      case SurgeStarboard => c.surgeStarboard
      case HeaveA => c.heaveA
      case HeaveB => c.heaveB
      case _ => 0.0
  }

  /** The commands of a run: set_thrust is begun with c only, and no activity but that and set_mode. */
  predicate OnlyCommands(labels: seq<Label>, c: Thrust) {
    forall k :: 0 <= k < |labels| && labels[k].choice.Begin? ==>
      labels[k].choice.activity == SetMode || Commanded(labels[k], c)
  }

  lemma SetModeProgram()
    ensures Program(SetMode) == [Writing(ModeMutex, [Own(Mode)])]
  {
  }

  /** A thrust command has read that the vehicle is enabled, and has done nothing else yet. */
  predicate HasReadMode(s: State) {
    && |s.threads| == 2 && !Busy(s.threads[1])
    && s.threads[0].activity == SetThrust && Armed(s.threads[0])
    && s.holder(ThrustMutex) == None && s.holder(ModeMutex) == None
    && ThrustIn(s.mem) == NO_THRUST
  }

  lemma ReadsEnabled(s: State, c: Thrust) returns (states: seq<State>, labels: seq<Label>)
    requires |s.threads| == 2 && !Busy(s.threads[0]) && !Busy(s.threads[1])
    requires s.mem(Mode) > 0.0 && ThrustIn(s.mem) == NO_THRUST
    requires s.holder(ModeMutex) == None && s.holder(ThrustMutex) == None
    ensures IsRun(states, labels) && states[0] == s
    ensures HasReadMode(states[|labels|]) && OnlyCommands(labels, c)
  {
    hide Program, Step, CanStep, ThrustIn, Armed, Entered, Finish;
    GatedPrograms(SetThrust);
    var args := ThrustArguments(c);
    assert ThrustIn(args) == c by { ThrustArgumentsAre(c); }
    states, labels := BeginsAndEnters(s, 0, SetThrust, args, 1);
    var s2 := states[|labels|];
    EndsReading(s, args);
    Extends(states, labels, Label(0, Go));
    states, labels := states + [Step(s2, Label(0, Go))], labels + [Label(0, Go)];
  }

  lemma ThrustArgumentsAre(c: Thrust)
    ensures ThrustIn(ThrustArguments(c)) == c
  {
  }

  /** The unlock after set_thrust has read a mode above 0. */
  lemma EndsReading(s: State, args: Store)
    requires |s.threads| == 2 && !Busy(s.threads[1])
    requires s.mem(Mode) > 0.0 && ThrustIn(s.mem) == NO_THRUST
    requires s.holder(ThrustMutex) == None
    ensures var s2 := Entered(WithThread(s, 0, Thread(SetThrust, 0, Outside, args, [s.now + 1])), 0, 1);
            CanStep(s2, Label(0, Go)) && HasReadMode(Step(s2, Label(0, Go)))
  {
    hide Program, Step, CanStep, ThrustIn;
    GatedPrograms(SetThrust);
    Unlocks(Entered(WithThread(s, 0, Thread(SetThrust, 0, Outside, args, [s.now + 1])), 0, 1), 0);
  }

  /** Then a mode command disables the vehicle. */
  lemma DisablesArmed(s: State, c: Thrust) returns (states: seq<State>, labels: seq<Label>)
    requires HasReadMode(s)
    ensures IsRun(states, labels) && states[0] == s && OnlyCommands(labels, c)
    ensures var end := states[|labels|];
            && |end.threads| == 2 && end.threads[0] == s.threads[0]
            && end.mem(Mode) == 0.0 && end.holder(ThrustMutex) == None && ThrustIn(end.mem) == NO_THRUST
  {
    hide Program, Step, CanStep, Armed, Moved, ThrustIn;
    SetModeProgram();
    var args: Store := _ => 0.0;
    states, labels := BeginsAndEnters(s, 1, SetMode, args, 1);
    assert [Own(Mode)][..1] == [Own(Mode)];
    ModeMoved(s.mem, args);
  }

  lemma ModeMoved(a: Store, regs: Store)
    ensures Moved(a, regs, [Own(Mode)])(Mode) == regs(Mode)
    ensures ThrustIn(Moved(a, regs, [Own(Mode)])) == ThrustIn(a)
  {
    assert [Own(Mode)][..0] == [];
  }

  /** A run from start-up to a disabled vehicle with an armed thread. */
  lemma ArmedThenDisabled(c: Thrust) returns (states: seq<State>, labels: seq<Label>)
    ensures IsRun(states, labels) && states[0] == Startup(2) && Initial(states[0]) && OnlyCommands(labels, c)
    ensures var end := states[|labels|];
            && |end.threads| == 2 && Armed(end.threads[0]) && end.threads[0].activity == SetThrust
            && end.mem(Mode) == 0.0 && end.holder(ThrustMutex) == None && ThrustIn(end.mem) == NO_THRUST
  {
    hide Program, Step, CanStep, Armed, Initial;
    StartupIsInitial(2);
    states, labels := ReadsEnabled(Startup(2), c);
    var later, next := DisablesArmed(states[|labels|], c);
    Joins(states, labels, later, next);
    states, labels := states + later[1..], labels + next;
  }

  /** Continued to the completion of the thrust command. */
  lemma LateRun(c: Thrust) returns (states: seq<State>, labels: seq<Label>, start: nat)
    ensures IsRun(states, labels) && states[0] == Startup(2) && OnlyCommands(labels, c)
    ensures start < |labels| && Disabled(states, start)
    ensures states[start].holder(ThrustMutex) == None && ThrustIn(states[start].mem) == NO_THRUST
    ensures |states[start].threads| == 2 && labels[|labels| - 1].t == 0
    ensures CommitsThrust(states[|labels| - 1], labels[|labels| - 1])
    ensures states[|labels| - 1].threads[0].activity == SetThrust
  {
    hide Program, Step, CanStep, Armed, Exclusive, CommitsThrust, ThrustIn, Startup;
    var first, before := ArmedThenDisabled(c);
    start := |before|;
    RunExclusive(first, before, start);
    var later, next := ArmedCanWrite(first[start], 0);
    Joins(first, before, later, next);
    states, labels := first + later[1..], before + next;
    assert states[start] == later[0] && states[|labels| - 1] == later[|next| - 1];
    forall k | start <= k < |states|
      ensures states[k].mem(Mode) <= 0.0
    {
      assert states[k] == later[k - start];
    }
  }

  /** A thrust write after the vehicle has been disabled does happen: for every thrust c there is a run
    * from start-up in which the vehicle is disabled with all thrusts at 0, stays disabled, and the
    * thrust becomes c nevertheless.
    */
  lemma LateWriteHappens(c: Thrust) returns (states: seq<State>, labels: seq<Label>, start: nat)
    ensures IsRun(states, labels) && states[0] == Startup(2) && Initial(states[0])
    ensures start < |labels| && Disabled(states, start)
    ensures ThrustIn(states[start].mem) == ThrustIn(Atomic(states, labels, start)) == NO_THRUST
    ensures ThrustIn(Atomic(states, labels, |labels|)) == c
    ensures |states[start].threads| == 2 && WritesBy(states, labels, start, |labels|, 0) == 1
  {
    hide Program, Step, CanStep, Armed, Initial, Exclusive, CommitsThrust, ThrustIn, Startup;
    StartupIsInitial(2);
    states, labels, start := LateRun(c);
    ThrustIsReplay(states, labels, start);
    LateWriteIs(states, labels, |labels| - 1, c);
    AtMostOneMoreWrite(states, labels, start, |labels|, 0);
  }

  lemma LateWriteIs(states: seq<State>, labels: seq<Label>, n: nat, c: Thrust)
    requires IsRun(states, labels) && Initial(states[0]) && n < |labels| && OnlyCommands(labels, c)
    requires CommitsThrust(states[n], labels[n]) && states[n].threads[labels[n].t].activity == SetThrust
    ensures ThrustIn(Atomic(states, labels, n + 1)) == c
  {
    hide Program, Step, CanStep, Initial, ThrustIn, CommitsThrust, Committed;
    CommittedThrust(states[n], labels[n], Atomic(states, labels, n));
    CommitLegitimate(states, labels, n);
  }

  // ---------------------------------------------------------------------------------------------
  // A torn read by the linear actuator loop
  // ---------------------------------------------------------------------------------------------

  const ALL_ON := Switches(0.0, 1.0, 1.0)

  function SwitchArguments(): Store {
    (f: Field) => if f == LaserOn || f == LaOn then 1.0 else 0.0
  }

  predicate OnlyAllOn(labels: seq<Label>) {
    forall k :: 0 <= k < |labels| && labels[k].choice.Begin? ==>
      labels[k].choice.activity == ActuatorIteration || Switched(labels[k], ALL_ON)
  }

  /** set_la has written two of its three fields. */
  predicate HalfWritten(s: State) {
    && |s.threads| == 2 && s.holder(ThrustMutex) == None
    && s.threads[0].activity == SetLa && s.threads[0].pc == 0 && s.threads[0].at == Inside(2)
    && SwitchesIn(s.mem) == Switches(0.0, 1.0, 0.0)
  }

  /** An iteration of the linear actuator loop has read the new laser switch and the old actuator switch. */
  predicate HasReadTorn(th: Thread) {
    th.activity == ActuatorIteration && !Busy(th) && SwitchesIn(th.regs) == Switches(0.0, 1.0, 0.0)
  }

  lemma WritesHalf() returns (states: seq<State>, labels: seq<Label>)
    ensures IsRun(states, labels) && states[0] == Startup(2) && OnlyAllOn(labels)
    ensures HalfWritten(states[|labels|]) && !Busy(states[|labels|].threads[1])
  {
    hide Program, Step, CanStep, Moved;
    LaPrograms();
    StartupIsInitial(2);
    var s, args := Startup(2), SwitchArguments();
    states, labels := BeginsAndEnters(s, 0, SetLa, args, 2);
    assert [Own(LedsOn), Own(LaserOn), Own(LaOn)][..2] == [Own(LedsOn), Own(LaserOn)];
    TwoMoved(s.mem, args);
  }

  lemma TwoMoved(a: Store, regs: Store)
    ensures SwitchesIn(Moved(a, regs, [Own(LedsOn), Own(LaserOn)])) == Switches(regs(LedsOn), regs(LaserOn), a(LaOn))
  {
    assert [Own(LedsOn), Own(LaserOn)][..1] == [Own(LedsOn)];
    assert [Own(LedsOn)][..0] == [];
  }

  lemma FetchedThree(regs: Store, mem: Store)
    ensures SwitchesIn(Fetched(regs, mem, [LedsOn, LaserOn, LaOn])) == SwitchesIn(mem)
  {
    assert [LedsOn, LaserOn, LaOn][..2] == [LedsOn, LaserOn];
    assert [LedsOn, LaserOn][..1] == [LedsOn];
    assert [LedsOn][..0] == [];
  }

  lemma ReadsHalf(s: State) returns (states: seq<State>, labels: seq<Label>)
    requires HalfWritten(s) && !Busy(s.threads[1])
    ensures IsRun(states, labels) && states[0] == s && OnlyAllOn(labels)
    ensures HalfWritten(states[|labels|]) && HasReadTorn(states[|labels|].threads[1])
    ensures states[|labels|].threads[0] == s.threads[0]
  {
    hide Program, Step, CanStep, Fetched;
    LaPrograms();
    var args: Store := _ => 0.0;
    states, labels := BeginsAndEnters(s, 1, ActuatorIteration, args, 3);
    var s2 := states[|labels|];
    assert [LedsOn, LaserOn, LaOn][..3] == [LedsOn, LaserOn, LaOn];
    FetchedThree(args, s.mem);
    Unlocks(s2, 1);
    Extends(states, labels, Label(1, Go));
    states, labels := states + [Step(s2, Label(1, Go))], labels + [Label(1, Go)];
  }

  lemma WritesRest(s: State) returns (states: seq<State>, labels: seq<Label>)
    requires HalfWritten(s)
    ensures IsRun(states, labels) && states[0] == s && OnlyAllOn(labels) && labels != []
    ensures Commits(states[|labels| - 1], labels[|labels| - 1])
    ensures Current(states[|labels| - 1].threads[labels[|labels| - 1].t]).m == LinearActuatorMutex
    ensures |states[|labels|].threads| == 2 && states[|labels|].threads[1] == s.threads[1]
  {
    hide Program, Step, CanStep;
    LaPrograms();
    var l := Label(0, Go);
    Writes(s, 0);
    var s1 := Step(s, l);
    Unlocks(s1, 0);
    states, labels := [s, s1, Step(s1, l)], [l, l];
  }

  lemma TornRun() returns (states: seq<State>, labels: seq<Label>)
    ensures IsRun(states, labels) && states[0] == Startup(2) && OnlyAllOn(labels) && labels != []
    ensures Commits(states[|labels| - 1], labels[|labels| - 1])
    ensures Current(states[|labels| - 1].threads[labels[|labels| - 1].t]).m == LinearActuatorMutex
    ensures |states[|labels|].threads| == 2 && HasReadTorn(states[|labels|].threads[1])
  {
    hide Program, Step, CanStep, HalfWritten, Commits, HasReadTorn, Switched;
    var first, before := WritesHalf();
    var second, next := ReadsHalf(first[|before|]);
    var rest, last := WritesRest(second[|next|]);
    Joins(second, next, rest, last);
    var later := second + rest[1..];
    Joins(first, before, later, next + last);
    states, labels := first + later[1..], before + (next + last);
    assert states[|labels| - 1] == later[|next + last| - 1] == rest[|last| - 1];
  }

  /** The linear actuator loop does see a half-written state, because it locks another mutex than
    * set_la: there is a run from start-up in which set_la switches laser and actuator on together, so
    * that the atomic state never has one without the other, and yet an iteration of the loop ends with
    * the laser on and the actuator off.
    */
  lemma ActuatorReadsTorn() returns (states: seq<State>, labels: seq<Label>)
    ensures IsRun(states, labels) && states[0] == Startup(2) && Initial(states[0])
    ensures |states[|labels|].threads| == 2 && HasReadTorn(states[|labels|].threads[1])
    ensures SwitchesIn(Atomic(states, labels, 0)) == Switches(0.0, 0.0, 0.0)
    ensures SwitchesIn(Atomic(states, labels, |labels|)) == ALL_ON
    ensures forall n :: 0 <= n < |states| ==>
              SwitchesIn(Atomic(states, labels, n)) != SwitchesIn(states[|labels|].threads[1].regs)
  {
    hide Program, Step, CanStep, Initial, Commits, Committed;
    StartupIsInitial(2);
    states, labels := TornRun();
    LaCommits(states, labels, |labels| - 1);
    forall n | 0 <= n < |states|
      ensures SwitchesIn(Atomic(states, labels, n)) != Switches(0.0, 1.0, 0.0)
    {
      SwitchesAreWhole(states, labels, n);
    }
  }
}

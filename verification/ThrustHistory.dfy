/** Every interleaved run is a run of three atomic thrust writes: a whole tuple by a command, the surge
  * pair by the yaw loop, one heave by the depth loop.
  */
module ThrustHistory {
  import opened Wrappers
  import opened Thrusts
  import opened SharedState
  import opened Mutexes
  import opened AtomicWrites
  import opened Snapshots
  import PidLoop
  import YawControl
  import DepthControl
  import CommandText
  import ThrusterControl

  datatype Action =
    | ByCommand(thrust: Thrust)
    | ByYaw(port: real, starboard: real)
    | ByDepth(heave: real)

  function Apply(s: Thrust, act: Action): Thrust {
    match act
    case ByCommand(thrust) => thrust
    case ByYaw(port, starboard) => s.(surgePort := port, surgeStarboard := starboard)
    case ByDepth(heave) => s.(heaveB := heave)
  }

  function Replay(start: Thrust, acts: seq<Action>): Thrust {
    if acts == [] then start else Apply(Replay(start, acts[..|acts| - 1]), acts[|acts| - 1])
  }

  /** The action that a thread is about to complete. */
  function ActionOf(th: Thread): Action {
    match th.activity
    case YawIteration => ByYaw(th.regs(SurgePort), th.regs(SurgeStarboard))
    case DepthIteration => ByDepth(th.regs(HeaveB))
    case _ => ByCommand(ThrustIn(th.regs))
  }

  predicate CommitsThrust(s: State, l: Label) {
    Commits(s, l) && Current(s.threads[l.t]).m == ThrustMutex
  }

  /** The thrust writes completed in the first n steps. */
  ghost function Actions(states: seq<State>, labels: seq<Label>, n: nat): seq<Action>
    requires n < |states| == |labels| + 1
  {
    if n == 0 then []
    else
      var s, l := states[n - 1], labels[n - 1];
      Actions(states, labels, n - 1) + if CommitsThrust(s, l) then [ActionOf(s.threads[l.t])] else []
  }

  const WRITE_ALL := [Own(SurgePort), Own(SurgeStarboard), Own(HeaveA), Own(HeaveB)]
  const WRITE_SURGE := [Own(SurgeStarboard), Own(SurgePort)]
  const WRITE_HEAVE := [Own(HeaveB)]

  /** The three sections that write thrust. */
  predicate WritesThrust(th: Thread) {
    || (th.activity == SetThrust && th.pc == 2)
    || (th.activity == YawIteration && th.pc == 6)
    || (th.activity == DepthIteration && th.pc == 6)
  }

  lemma ThrustWriters(th: Thread)
    requires Busy(th) && Current(th).Writing? && Current(th).m == ThrustMutex
    ensures WritesThrust(th)
    ensures th.activity == SetThrust ==> Current(th).moves == WRITE_ALL
    ensures th.activity == YawIteration ==> Current(th).moves == WRITE_SURGE
    ensures th.activity == DepthIteration ==> Current(th).moves == WRITE_HEAVE
  {
  }

  lemma AllMoved(a: Store, regs: Store)
    ensures ThrustIn(Moved(a, regs, WRITE_ALL)) == ThrustIn(regs)
  {
    MovedTo(a, regs, WRITE_ALL, 0);
    MovedTo(a, regs, WRITE_ALL, 1);
    MovedTo(a, regs, WRITE_ALL, 2);
    MovedTo(a, regs, WRITE_ALL, 3);
  }

  lemma SurgeMoved(a: Store, regs: Store)
    ensures ThrustIn(Moved(a, regs, WRITE_SURGE)) == Apply(ThrustIn(a), ByYaw(regs(SurgePort), regs(SurgeStarboard)))
  {
    MovedTo(a, regs, WRITE_SURGE, 0);
    MovedTo(a, regs, WRITE_SURGE, 1);
    MovedPast(a, regs, WRITE_SURGE, HeaveA);
    MovedPast(a, regs, WRITE_SURGE, HeaveB);
  }

  lemma HeaveMoved(a: Store, regs: Store)
    ensures ThrustIn(Moved(a, regs, WRITE_HEAVE)) == Apply(ThrustIn(a), ByDepth(regs(HeaveB)))
  {
    MovedTo(a, regs, WRITE_HEAVE, 0);
    MovedPast(a, regs, WRITE_HEAVE, SurgePort);
    MovedPast(a, regs, WRITE_HEAVE, SurgeStarboard);
    MovedPast(a, regs, WRITE_HEAVE, HeaveA);
  }

  /** One step of the atomic memory is at most one action. */
  lemma CommittedThrust(s: State, l: Label, a: Store)
    requires CanStep(s, l)
    ensures ThrustIn(Committed(s, l, a))
              == if CommitsThrust(s, l) then Apply(ThrustIn(a), ActionOf(s.threads[l.t])) else ThrustIn(a)
  {
    hide CanStep, Program, Guard, WRITE_ALL, WRITE_SURGE, WRITE_HEAVE, Moved;
    if Commits(s, l) {
      var th := s.threads[l.t];
      if Current(th).m == ThrustMutex {
        ThrustWriters(th);
        AllMoved(a, th.regs);
        SurgeMoved(a, th.regs);
        HeaveMoved(a, th.regs);
      } else {
        CurrentGuarded(th);
        CommandGuards();
        MovedElsewhere(a, th.regs, Current(th).moves, Current(th).m, SurgePort);
        MovedElsewhere(a, th.regs, Current(th).moves, Current(th).m, SurgeStarboard);
        MovedElsewhere(a, th.regs, Current(th).moves, Current(th).m, HeaveA);
        MovedElsewhere(a, th.regs, Current(th).moves, Current(th).m, HeaveB);
      }
    }
  }

  /** Nobody is between the lock and the unlock of a section that writes thrust. */
  predicate ThrustSettled(s: State) {
    match s.holder(ThrustMutex)
    case None => true
    case Some(t) => t < |s.threads| && Busy(s.threads[t]) && Current(s.threads[t]).Reading?
  }

  /** Every interleaving of field-by-field writes refines the run of its atomic actions: they leave the
    * atomic thrust, and the memory holds that whenever no writer is in the middle of its section.
    */
  lemma {:induction false} ThrustIsReplay(states: seq<State>, labels: seq<Label>, n: nat)
    requires IsRun(states, labels) && Initial(states[0]) && n < |states|
    ensures ThrustIn(Atomic(states, labels, n)) == Replay(ThrustIn(states[0].mem), Actions(states, labels, n))
    ensures ThrustSettled(states[n]) ==> ThrustIn(states[n].mem) == ThrustIn(Atomic(states, labels, n))
  {
    hide Step, CanStep, Program, Guard, Commits, Committed, CommitsThrust, Initial;
    if ThrustSettled(states[n]) {
      RunRefines(states, labels, n);
      SettledThrust(states[n], Atomic(states, labels, n));
    }
    if n > 0 {
      ThrustIsReplay(states, labels, n - 1);
      CommittedThrust(states[n - 1], labels[n - 1], Atomic(states, labels, n - 1));
      if CommitsThrust(states[n - 1], labels[n - 1]) {
        var acts := Actions(states, labels, n);
        assert acts[..|acts| - 1] == Actions(states, labels, n - 1);
      } else {
        assert Actions(states, labels, n) == Actions(states, labels, n - 1);
      }
    }
  }

  lemma SettledThrust(s: State, a: Store)
    requires Refines(s, a) && ThrustSettled(s)
    ensures ThrustIn(s.mem) == ThrustIn(a)
  {
    hide Program, Guard;
    CommandGuards();
    assert s.mem(SurgePort) == Pending(s, a, Guard(SurgePort))(SurgePort);
    assert s.mem(SurgeStarboard) == Pending(s, a, Guard(SurgeStarboard))(SurgeStarboard);
    assert s.mem(HeaveA) == Pending(s, a, Guard(HeaveA))(HeaveA);
    assert s.mem(HeaveB) == Pending(s, a, Guard(HeaveB))(HeaveB);
  }

  // ---------------------------------------------------------------------------------------------
  // Where thrust values come from
  // ---------------------------------------------------------------------------------------------

  /** The last action satisfying a test. */
  function Last(acts: seq<Action>, test: Action -> bool): (r: Option<Action>)
    ensures r.Some? ==> r.value in acts && test(r.value)
    ensures r.None? ==> forall act :: act in acts ==> !test(act)
  {
    if acts == [] then None
    else if test(acts[|acts| - 1]) then Some(acts[|acts| - 1])
    else Last(acts[..|acts| - 1], test)
  }

  /** The surge pair is from one action, the last that was not by the depth loop; heave_a is from the
    * last command; heave_b from the last action that was not by the yaw loop.
    */
  lemma {:induction false} ReplayProvenance(start: Thrust, acts: seq<Action>)
    ensures var r := Replay(start, acts);
            && (match Last(acts, (act: Action) => !act.ByDepth?)
                case None => r.surgePort == start.surgePort && r.surgeStarboard == start.surgeStarboard
                case Some(ByCommand(c)) => r.surgePort == c.surgePort && r.surgeStarboard == c.surgeStarboard
                case Some(ByYaw(port, starboard)) => r.surgePort == port && r.surgeStarboard == starboard
                case Some(_) => false)
            && (match Last(acts, (act: Action) => act.ByCommand?)
                case None => r.heaveA == start.heaveA
                case Some(act) => r.heaveA == act.thrust.heaveA)
            && (match Last(acts, (act: Action) => !act.ByYaw?)
                case None => r.heaveB == start.heaveB
                case Some(ByCommand(c)) => r.heaveB == c.heaveB
                case Some(ByDepth(heave)) => r.heaveB == heave
                case Some(_) => false)
  {
    if acts != [] {
      ReplayProvenance(start, acts[..|acts| - 1]);
    }
  }

  // ---------------------------------------------------------------------------------------------
  // Which actions there are
  // ---------------------------------------------------------------------------------------------

  /** A controller that has computed its thrusts still has them. */
  predicate ComputedOk(th: Thread) {
    && (th.activity == YawIteration && th.pc == 6 ==> Allowed(YawController, th.regs))
    && (th.activity == DepthIteration && th.pc == 6 ==> Allowed(DepthController, th.regs))
  }

  lemma ComputingBlocks()
    ensures |Program(YawIteration)| == 7 && |Program(DepthIteration)| == 7
    ensures Program(YawIteration)[5] == Compute(YawController) && Program(DepthIteration)[5] == Compute(DepthController)
    ensures Program(YawIteration)[6].Writing? && Program(DepthIteration)[6].Writing?
  {
  }

  lemma StepComputed(s: State, l: Label, t: nat)
    requires CanStep(s, l) && t < |s.threads| && ComputedOk(s.threads[t])
    ensures t < |Step(s, l).threads| && ComputedOk(Step(s, l).threads[t])
  {
    hide Program, Passes, Allowed, WithComputed;
    var th := s.threads[l.t];
    StepOthers(s, l, t);
    if t == l.t && Busy(th) {
      hide CanStep, Step;
      StepContinues(s, l);
      ComputingBlocks();
      StepComputes(s, l);
    }
  }

  lemma StepComputes(s: State, l: Label)
    requires CanStep(s, l) && Busy(s.threads[l.t])
    ensures l.t < |Step(s, l).threads|
    ensures Current(s.threads[l.t]).Compute? ==>
              && Allowed(Current(s.threads[l.t]).who, Step(s, l).threads[l.t].regs)
              && l.choice.Computed?
              && Step(s, l).threads[l.t].regs
                   == WithComputed(Current(s.threads[l.t]).who, s.threads[l.t].regs, l.choice.values)
    ensures Current(s.threads[l.t]).Writing? ==> Step(s, l).threads[l.t].regs == s.threads[l.t].regs
    ensures !Current(s.threads[l.t]).Test? && Step(s, l).threads[l.t].pc != s.threads[l.t].pc ==>
              Step(s, l).threads[l.t].pc == s.threads[l.t].pc + 1
  {
    hide Program, Passes;
  }

  lemma {:induction false} RunComputed(states: seq<State>, labels: seq<Label>, n: nat, t: nat)
    requires IsRun(states, labels) && Initial(states[0]) && n < |states| && t < |states[n].threads|
    ensures ComputedOk(states[n].threads[t])
  {
    hide Step, CanStep, Program, Initial, ComputedOk;
    if n == 0 {
      InitialComputed(states[0], t);
    } else {
      RunExclusive(states, labels, n - 1);
      StepOthers(states[n - 1], labels[n - 1], t);
      RunComputed(states, labels, n - 1, t);
      StepComputed(states[n - 1], labels[n - 1], t);
    }
  }

  lemma InitialComputed(s: State, t: nat)
    requires Initial(s) && t < |s.threads|
    ensures ComputedOk(s.threads[t])
  {
    hide Program;
    ComputingBlocks();
  }

  /** What the state machine lets a controller compute does cover everything that it computes. */
  lemma YawOutputAllowed(cos: real -> real, l: PidLoop.Loop, inp: YawControl.YawInput, v: Store)
    requires l.Valid() && inp.mode == YawControl.MODE_AUTON && PidLoop.TimeStep(l.prevTime, inp.now) != 0
    requires YawControl.Output(cos, l, inp) == Some(YawControl.Surge(v(SurgePort), v(SurgeStarboard)))
    ensures Allowed(YawController, v)
  {
    hide PidLoop.Pid, PidLoop.TimeStep;
  }

  lemma DepthOutputAllowed(l: PidLoop.Loop, inp: DepthControl.DepthInput, v: Store)
    requires l.Valid() && inp.mode == DepthControl.MODE_AUTON_DEPTH && PidLoop.TimeStep(l.prevTime, inp.now) != 0
    requires DepthControl.Output(l, inp) == Some(v(HeaveB))
    ensures Allowed(DepthController, v)
  {
    hide PidLoop.Pid, PidLoop.TimeStep;
  }

  /** The step begins a set_thrust command with the arguments c. */
  predicate Commanded(l: Label, c: Thrust) {
    l.choice.Begin? && l.choice.activity == SetThrust && ThrustIn(l.choice.args) == c
  }

  /** A command writes the arguments of a call, the yaw loop a pair of at most 75 with one side at 30,
    * the depth loop a heave within 65.
    */
  ghost predicate Legitimate(labels: seq<Label>, act: Action) {
    match act
    case ByCommand(c) => exists k :: 0 <= k < |labels| && Commanded(labels[k], c)
    case ByYaw(port, starboard) => port <= 75.0 && starboard <= 75.0 && (port == 30.0 || starboard == 30.0)
    case ByDepth(heave) => -65.0 <= heave <= 65.0
  }

  lemma SetThrustKeeps()
    ensures Keeps(SetThrust, SurgePort) && Keeps(SetThrust, SurgeStarboard)
    ensures Keeps(SetThrust, HeaveA) && Keeps(SetThrust, HeaveB)
  {
  }

  lemma ThrustInArguments(regs: Store, args: Store)
    requires regs(SurgePort) == args(SurgePort) && regs(SurgeStarboard) == args(SurgeStarboard)
    requires regs(HeaveA) == args(HeaveA) && regs(HeaveB) == args(HeaveB)
    ensures ThrustIn(regs) == ThrustIn(args)
  {
  }

  lemma CommitLegitimate(states: seq<State>, labels: seq<Label>, n: nat)
    requires IsRun(states, labels) && Initial(states[0]) && n < |labels|
    requires CommitsThrust(states[n], labels[n])
    ensures Legitimate(labels, ActionOf(states[n].threads[labels[n].t]))
  {
    hide Step, CanStep, Program, Initial, Remembers, ThrustIn, Keeps;
    var t := labels[n].t;
    var th := states[n].threads[t];
    ThrustWriters(th);
    RunComputed(states, labels, n, t);
    RunHistory(states, labels, n, t);
    if th.activity == SetThrust {
      SetThrustKeeps();
      ThrustInArguments(th.regs, labels[th.stamps[0] - 1].choice.args);
      assert Commanded(labels[th.stamps[0] - 1], ThrustIn(th.regs));
    }
  }

  lemma {:induction false} ActionsLegitimate(states: seq<State>, labels: seq<Label>, n: nat)
    requires IsRun(states, labels) && Initial(states[0]) && n < |states|
    ensures forall act :: act in Actions(states, labels, n) ==> Legitimate(labels, act)
  {
    hide Step, CanStep, Program, Initial, Legitimate, CommitsThrust;
    if n > 0 {
      ActionsLegitimate(states, labels, n - 1);
      if CommitsThrust(states[n - 1], labels[n - 1]) {
        CommitLegitimate(states, labels, n - 1);
      }
    }
  }

  /** The thrust at any moment of any interleaving: the surge pair is the initial one, that of one
    * command, or one computed by the yaw loop, never a mixture; heave_a is the initial one or that of
    * a command; heave_b is the initial one, that of a command, or within 65.
    */
  lemma ThrustProvenance(states: seq<State>, labels: seq<Label>, n: nat)
    requires IsRun(states, labels) && Initial(states[0]) && n < |states|
    ensures var start, r := ThrustIn(states[0].mem), ThrustIn(Atomic(states, labels, n));
            && (|| (r.surgePort == start.surgePort && r.surgeStarboard == start.surgeStarboard)
                || (exists k, c :: 0 <= k < |labels| && Commanded(labels[k], c)
                      && r.surgePort == c.surgePort && r.surgeStarboard == c.surgeStarboard)
                || Legitimate(labels, ByYaw(r.surgePort, r.surgeStarboard)))
            && (|| r.heaveA == start.heaveA
                || (exists k, c :: 0 <= k < |labels| && Commanded(labels[k], c) && r.heaveA == c.heaveA))
            && (|| r.heaveB == start.heaveB
                || (exists k, c :: 0 <= k < |labels| && Commanded(labels[k], c) && r.heaveB == c.heaveB)
                || -65.0 <= r.heaveB <= 65.0)
  {
    hide Step, CanStep, Initial, Actions, Commanded, Atomic, Replay, ThrustIn;
    ThrustIsReplay(states, labels, n);
    ActionsLegitimate(states, labels, n);
    ReplayProvenance(ThrustIn(states[0].mem), Actions(states, labels, n));
  }

  // ---------------------------------------------------------------------------------------------
  // What the sender transmits
  // ---------------------------------------------------------------------------------------------

  /** The step in which the sender compares what it has read, and transmits it if it is new. */
  predicate Sends(s: State, l: Label) {
    && l.t < |s.threads|
    && var th := s.threads[l.t];
       && Busy(th) && Current(th).Reading? && Current(th).send
       && th.at == Inside(|Current(th).fields|)
  }

  /** The samples taken by the sender in the first n steps: each is the atomic thrust of its moment. */
  ghost function Samples(states: seq<State>, labels: seq<Label>, n: nat): seq<Thrust>
    requires n < |states| == |labels| + 1
  {
    if n == 0 then []
    else Samples(states, labels, n - 1)
         + if Sends(states[n - 1], labels[n - 1]) then [ThrustIn(Atomic(states, labels, n - 1))] else []
  }

  lemma ReadThrust(s: State, t: nat)
    requires t < |s.threads| && ReadSoFar(s, t) && s.threads[t].activity != ActuatorIteration
    requires Busy(s.threads[t]) && Current(s.threads[t]).Reading? && s.threads[t].at == Inside(4)
    requires Current(s.threads[t]).fields == [SurgePort, SurgeStarboard, HeaveA, HeaveB]
    ensures ThrustIn(s.threads[t].regs) == ThrustIn(s.mem)
  {
    hide Program;
    var fields := Current(s.threads[t]).fields;
    assert fields[0] == SurgePort && fields[1] == SurgeStarboard && fields[2] == HeaveA && fields[3] == HeaveB;
  }

  /** What the sender has in its hands when it compares is the atomic thrust of that moment. */
  lemma SenderReadsAtomic(states: seq<State>, labels: seq<Label>, n: nat)
    requires IsRun(states, labels) && Initial(states[0]) && n < |labels|
    requires Sends(states[n], labels[n])
    ensures ThrustIn(states[n].threads[labels[n].t].regs) == ThrustIn(Atomic(states, labels, n))
  {
    hide Step, CanStep, Program, Initial, Guard, ReadSoFar, ThrustIn;
    var t := labels[n].t;
    var th := states[n].threads[t];
    OnlySenderSends(th);
    RunExclusive(states, labels, n);
    RunReads(states, labels, n, t);
    assert Holds(th, ThrustMutex);
    ThrustIsReplay(states, labels, n);
    ReadThrust(states[n], t);
  }

  lemma OnlySenderSends(th: Thread)
    requires Busy(th) && Current(th).Reading? && Current(th).send
    ensures th.activity == SenderIteration
    ensures Current(th) == Reading(ThrustMutex, [SurgePort, SurgeStarboard, HeaveA, HeaveB], true)
  {
  }

  lemma StepSends(s: State, l: Label)
    requires CanStep(s, l)
    ensures Sends(s, l) && ThrustIn(s.threads[l.t].regs) != s.prev ==>
              && Step(s, l).prev == ThrustIn(s.threads[l.t].regs)
              && Step(s, l).wire == s.wire + [ThrustIn(s.threads[l.t].regs)]
    ensures !(Sends(s, l) && ThrustIn(s.threads[l.t].regs) != s.prev) ==>
              Step(s, l).prev == s.prev && Step(s, l).wire == s.wire
  {
    hide Program, Passes, Allowed, WithComputed;
  }

  /** The sender of any interleaved run transmits exactly what a change-only sender does that samples
    * the atomic thrust: the samples that differ from the one before.
    */
  lemma {:induction false} WireIsChangesOfAtomicThrust(states: seq<State>, labels: seq<Label>, n: nat)
    requires IsRun(states, labels) && Initial(states[0]) && n < |states|
    ensures states[n].wire == Changes(states[0].prev, Samples(states, labels, n))
    ensures states[n].prev == SampleBefore(states[0].prev, Samples(states, labels, n), |Samples(states, labels, n)|)
  {
    hide Step, CanStep, Program, Initial, Sends, Atomic, ThrustIn, Changes;
    if n > 0 {
      WireIsChangesOfAtomicThrust(states, labels, n - 1);
      StepSends(states[n - 1], labels[n - 1]);
      if Sends(states[n - 1], labels[n - 1]) {
        SenderReadsAtomic(states, labels, n - 1);
        ChangesStep(states[0].prev, Samples(states, labels, n - 1), ThrustIn(Atomic(states, labels, n - 1)));
      } else {
        assert Samples(states, labels, n) == Samples(states, labels, n - 1);
      }
    } else {
      EmptyWire(states[0]);
    }
  }

  lemma EmptyWire(s: State)
    requires Initial(s)
    ensures s.wire == Changes(s.prev, [])
  {
  }

  /** When the latest thrust write before a tick of the sender is that of a command with four whole
    * numbers, the tick transmits exactly their text, unless the sender sampled the same tuple last.
    */
  lemma CommandReachesWire(states: seq<State>, labels: seq<Label>, n: nat, a: int, b: int, c: int, d: int)
    requires IsRun(states, labels) && Initial(states[0]) && n < |labels| && Sends(states[n], labels[n])
    ensures var acts, t := Actions(states, labels, n), Thrust(a as real, b as real, c as real, d as real);
            acts != [] && acts[|acts| - 1] == ByCommand(t) ==>
              && states[n + 1].wire == states[n].wire + (if states[n].prev != t then [t] else [])
              && states[n + 1].prev == t
              && ThrusterControl.CommandOf(t) == CommandText.FourInts(a, b, c, d)
  {
    hide Step, CanStep, Initial, Sends, ThrustIn, CommandText.FourInts;
    ThrustIsReplay(states, labels, n);
    SenderReadsAtomic(states, labels, n);
    StepSends(states[n], labels[n]);
    ThrusterControl.TruncateOfInt(a);
    ThrusterControl.TruncateOfInt(b);
    ThrusterControl.TruncateOfInt(c);
    ThrusterControl.TruncateOfInt(d);
  }
}

/** What a thread reads under a lock is a picture of one moment. */
module Snapshots {
  import opened Wrappers
  import opened SharedState
  import opened Mutexes
  import opened AtomicWrites

  /** The fields that a reading section has read so far still have the values read. */
  ghost predicate ReadSoFar(s: State, t: nat)
    requires t < |s.threads|
  {
    var th := s.threads[t];
    Busy(th) && Current(th).Reading? && th.at.Inside? && th.activity != ActuatorIteration ==>
      forall j :: 0 <= j < th.at.done && j < |Current(th).fields| ==>
        th.regs(Current(th).fields[j]) == s.mem(Current(th).fields[j])
  }

  lemma CurrentReadGuarded(th: Thread)
    requires Busy(th) && th.activity != ActuatorIteration
    ensures Guarded(Current(th))
  {
    hide Guarded;
    ProgramsGuarded(th.activity, th.pc);
  }

  /** A writer elsewhere touches no field of a section held by t. */
  lemma WritesElsewhere(s: State, l: Label, t: nat, m: Mutex, f: Field)
    requires Exclusive(s) && CanStep(s, l) && t < |s.threads| && l.t != t
    requires s.holder(m) == Some(t) && Guard(f) == m
    ensures Step(s, l).mem(f) == s.mem(f)
  {
    hide Program, Guard, Passes, Allowed, WithComputed;
    var th := s.threads[l.t];
    if Busy(th) && Current(th).Writing? && th.at.Inside? && th.at.done < |Current(th).moves| {
      CurrentGuarded(th);
      assert Guard(Current(th).moves[th.at.done].to) == Current(th).m;
      assert Holds(th, Current(th).m);
      assert s.holder(Current(th).m) == Some(l.t);
    }
  }

  lemma StepReads(s: State, l: Label, t: nat)
    requires Exclusive(s) && CanStep(s, l) && t < |s.threads| && ReadSoFar(s, t)
    ensures t < |Step(s, l).threads| && ReadSoFar(Step(s, l), t)
  {
    hide Program, Guard, Passes, Allowed, WithComputed;
    var th := s.threads[t];
    var s' := Step(s, l);
    if l.t != t && Busy(th) && Current(th).Reading? && th.at.Inside? && th.activity != ActuatorIteration {
      CurrentReadGuarded(th);
      assert Holds(th, Current(th).m);
      forall j | 0 <= j < th.at.done && j < |Current(th).fields|
        ensures th.regs(Current(th).fields[j]) == s'.mem(Current(th).fields[j])
      {
        WritesElsewhere(s, l, t, Current(th).m, Current(th).fields[j]);
      }
    }
  }

  lemma {:induction false} RunReads(states: seq<State>, labels: seq<Label>, n: nat, t: nat)
    requires IsRun(states, labels) && Initial(states[0]) && n < |states| && t < |states[n].threads|
    ensures ReadSoFar(states[n], t)
  {
    hide Step, CanStep, ReadSoFar;
    if n == 0 {
      InitialReads(states[0], t);
    } else {
      RunExclusive(states, labels, n - 1);
      StepOthers(states[n - 1], labels[n - 1], t);
      RunReads(states, labels, n - 1, t);
      StepReads(states[n - 1], labels[n - 1], t);
    }
  }

  lemma InitialReads(s: State, t: nat)
    requires Initial(s) && t < |s.threads|
    ensures ReadSoFar(s, t)
  {
  }

  // ---------------------------------------------------------------------------------------------
  // Completed sections
  // ---------------------------------------------------------------------------------------------

  /** The activity completed block j by step th.stamps[j + 1]. If it is a reading section, the thread
    * still has the values that its fields had together at that moment, when the mutex was free.
    */
  ghost predicate Remembers(states: seq<State>, th: Thread, j: nat)
    requires j + 1 < |th.stamps| && j < |Program(th.activity)|
  {
    var b := Program(th.activity)[j];
    var moment := th.stamps[j + 1];
    b.Reading? ==>
      && moment < |states| && states[moment].holder(b.m) == None
      && forall k :: 0 <= k < |b.fields| ==> th.regs(b.fields[k]) == states[moment].mem(b.fields[k])
  }

  /** The history variable of a thread at step n. */
  predicate StampsOk(th: Thread, n: nat) {
    && (th.stamps == [] ==> !Busy(th))
    && (Busy(th) ==> |th.stamps| == th.pc + 1)
    && |th.stamps| <= |Program(th.activity)| + 1
    && (forall i, j :: 0 <= i < j < |th.stamps| ==> th.stamps[i] < th.stamps[j])
    && (forall i :: 0 <= i < |th.stamps| ==> th.stamps[i] <= n)
  }

  lemma StepStamps(s: State, l: Label, t: nat)
    requires CanStep(s, l) && t < |s.threads| && StampsOk(s.threads[t], s.now)
    ensures t < |Step(s, l).threads| && StampsOk(Step(s, l).threads[t], Step(s, l).now)
  {
    hide Program, Guard, Passes, Allowed, WithComputed;
  }

  /** No block overwrites what an earlier one of the same activity has read. */
  lemma ReadsDisjoint(a: Activity, i: nat, j: nat)
    requires i < j < |Program(a)| && Program(a)[i].Reading?
    ensures Program(a)[j].Reading? ==> Program(a)[i].m != Program(a)[j].m
    ensures Program(a)[j].Compute? ==> Program(a)[i].m != ThrustMutex
  {
  }

  /** No block of an activity reads f or computes anything. */
  predicate Keeps(a: Activity, f: Field) {
    forall j :: 0 <= j < |Program(a)| ==>
      !Program(a)[j].Compute? && (Program(a)[j].Reading? ==> f !in Program(a)[j].fields)
  }

  /** The activity of thread t began when its first stamp says, with arguments that it still has. */
  ghost predicate Began(labels: seq<Label>, th: Thread, t: nat) {
    th.stamps != [] ==>
      && 1 <= th.stamps[0] <= |labels|
      && labels[th.stamps[0] - 1].t == t
      && labels[th.stamps[0] - 1].choice.Begin?
      && labels[th.stamps[0] - 1].choice.activity == th.activity
      && forall f :: Keeps(th.activity, f) ==> th.regs(f) == labels[th.stamps[0] - 1].choice.args(f)
  }

  /** Everything a thread remembers of its current activity is true. */
  ghost predicate History(states: seq<State>, labels: seq<Label>, n: nat, t: nat)
    requires n < |states| && t < |states[n].threads|
  {
    var th := states[n].threads[t];
    && StampsOk(th, n)
    && Began(labels, th, t)
    && (th.activity != ActuatorIteration ==> forall j :: 0 <= j && j + 1 < |th.stamps| ==> Remembers(states, th, j))
  }

  lemma StepKeepsArguments(s: State, l: Label, f: Field)
    requires CanStep(s, l) && Busy(s.threads[l.t]) && Keeps(s.threads[l.t].activity, f)
    ensures l.t < |Step(s, l).threads| && Step(s, l).threads[l.t].regs(f) == s.threads[l.t].regs(f)
  {
    hide Program, Passes, Allowed;
  }

  lemma StepBegan(states: seq<State>, labels: seq<Label>, n: nat, t: nat)
    requires IsRun(states, labels) && n < |labels| && states[n].now == n
    requires t < |states[n].threads| == |states[n + 1].threads|
    requires StampsOk(states[n].threads[t], n) && Began(labels, states[n].threads[t], t)
    ensures Began(labels, states[n + 1].threads[t], t)
  {
    hide Step, CanStep, Program, Keeps;
    var th := states[n].threads[t];
    StepOthers(states[n], labels[n], t);
    if labels[n].t == t {
      if Busy(th) {
        StepContinues(states[n], labels[n]);
        forall f | Keeps(th.activity, f)
          ensures states[n + 1].threads[t].regs(f) == th.regs(f)
        {
          StepKeepsArguments(states[n], labels[n], f);
        }
      } else {
        StepBegins(states[n], labels[n]);
      }
    }
  }

  lemma StepRemembers(states: seq<State>, labels: seq<Label>, n: nat, t: nat, j: nat)
    requires IsRun(states, labels) && n < |labels| && states[n].now == n
    requires t < |states[n].threads| == |states[n + 1].threads|
    requires History(states, labels, n, t) && ReadSoFar(states[n], t)
    requires states[n + 1].threads[t].activity != ActuatorIteration
    requires j + 1 < |states[n + 1].threads[t].stamps|
    requires states[n + 1].threads[t] != states[n].threads[t]
    ensures j < |Program(states[n + 1].threads[t].activity)|
    ensures Remembers(states, states[n + 1].threads[t], j)
  {
    hide Step, CanStep, Program, Began, Steps;
    var th, th' := states[n].threads[t], states[n + 1].threads[t];
    StepOthers(states[n], labels[n], t);
    assert labels[n].t == t;
    if Busy(th) {
      StepContinues(states[n], labels[n]);
      if Program(th.activity)[j].Reading? {
        if j == th.pc {
          StepFinishesReading(states[n], labels[n]);
        } else {
          assert Remembers(states, th, j);
          StepKeeps(states[n], labels[n], j);
        }
      }
    } else {
      StepBegins(states[n], labels[n]);
    }
  }

  lemma StepFinishesReading(s: State, l: Label)
    requires CanStep(s, l) && Busy(s.threads[l.t]) && Current(s.threads[l.t]).Reading?
    requires l.t < |Step(s, l).threads| && Step(s, l).threads[l.t].stamps != s.threads[l.t].stamps
    ensures var th := s.threads[l.t];
            && th.at.Inside? && th.at.done >= |Current(th).fields|
            && Step(s, l).threads[l.t].regs == th.regs
            && Step(s, l).mem == s.mem && Step(s, l).holder(Current(th).m) == None
  {
    hide Program, Passes, Allowed, WithComputed;
  }

  /** What an earlier section of the activity has read, the next step does not overwrite. */
  lemma StepKeeps(s: State, l: Label, j: nat)
    requires CanStep(s, l) && Busy(s.threads[l.t]) && j < s.threads[l.t].pc
    requires s.threads[l.t].activity != ActuatorIteration
    requires Program(s.threads[l.t].activity)[j].Reading?
    ensures l.t < |Step(s, l).threads|
    ensures forall f :: f in Program(s.threads[l.t].activity)[j].fields ==>
              Step(s, l).threads[l.t].regs(f) == s.threads[l.t].regs(f)
  {
    hide Program, Guard, Passes, Allowed;
    var th := s.threads[l.t];
    ReadsDisjoint(th.activity, j, th.pc);
    ProgramsGuarded(th.activity, j);
    ProgramsGuarded(th.activity, th.pc);
    CommandGuards();
  }

  lemma {:induction false} RunHistory(states: seq<State>, labels: seq<Label>, n: nat, t: nat)
    requires IsRun(states, labels) && Initial(states[0]) && n < |states|
    requires t < |states[n].threads|
    ensures states[n].now == n && History(states, labels, n, t)
  {
    hide Step, CanStep, Exclusive, Began, Remembers, ReadSoFar;
    if n > 0 {
      RunExclusive(states, labels, n - 1);
      StepOthers(states[n - 1], labels[n - 1], t);
      RunHistory(states, labels, n - 1, t);
      RunReads(states, labels, n - 1, t);
      StepStamps(states[n - 1], labels[n - 1], t);
      StepBegan(states, labels, n - 1, t);
      var th, th' := states[n - 1].threads[t], states[n].threads[t];
      if th' != th && th'.activity != ActuatorIteration {
        forall j | 0 <= j && j + 1 < |th'.stamps|
          ensures Remembers(states, th', j)
        {
          StepRemembers(states, labels, n - 1, t, j);
        }
      }
    } else {
      InitialHistory(states, labels, t);
    }
  }

  lemma InitialHistory(states: seq<State>, labels: seq<Label>, t: nat)
    requires |states| > 0 && Initial(states[0]) && t < |states[0].threads|
    ensures History(states, labels, 0, t)
  {
  }

  /** Block j of a thread's current activity, a writing section, was committed by the step before its stamp. */
  ghost predicate CommittedBy(states: seq<State>, labels: seq<Label>, th: Thread, t: nat, j: nat)
    requires j + 1 < |th.stamps| && j < |Program(th.activity)|
  {
    var m: int := th.stamps[j + 1] as int - 1;
    && 0 <= m < |labels| && m + 1 < |states| && labels[m].t == t && Commits(states[m], labels[m])
    && states[m].threads[t].activity == th.activity && states[m].threads[t].pc == j
    && states[m].threads[t].stamps == th.stamps[..j + 1]
  }

  lemma StepCommits(s: State, l: Label)
    requires CanStep(s, l) && Busy(s.threads[l.t]) && Current(s.threads[l.t]).Writing? && PlaceOk(s.threads[l.t])
    requires l.t < |Step(s, l).threads| && Step(s, l).threads[l.t].stamps != s.threads[l.t].stamps
    ensures Commits(s, l)
  {
    hide Program, Passes, Allowed, WithComputed;
  }

  /** Every writing section that an activity has completed was committed, by itself. */
  lemma {:induction false} CompletedWritesCommit(states: seq<State>, labels: seq<Label>, n: nat, t: nat, j: nat)
    requires IsRun(states, labels) && Initial(states[0]) && n < |states| && t < |states[n].threads|
    requires j + 1 < |states[n].threads[t].stamps|
    ensures j < |Program(states[n].threads[t].activity)|
    ensures Program(states[n].threads[t].activity)[j].Writing? ==>
              CommittedBy(states, labels, states[n].threads[t], t, j)
  {
    hide Step, CanStep, Program, Began, Remembers, Initial, Commits;
    RunHistory(states, labels, n, t);
    if n == 0 {
      InitialHasNoPast(states[0], t);
    } else {
      var s, l := states[n - 1], labels[n - 1];
      StepOthers(s, l, t);
      RunHistory(states, labels, n - 1, t);
      var th, th' := s.threads[t], states[n].threads[t];
      if l.t != t || (Busy(th) && th'.stamps == th.stamps) {
        if l.t == t {
          StepContinues(s, l);
        }
        CompletedWritesCommit(states, labels, n - 1, t, j);
      } else if Busy(th) {
        StepContinues(s, l);
        RunExclusive(states, labels, n - 1);
        if j + 1 < |th.stamps| {
          CompletedWritesCommit(states, labels, n - 1, t, j);
          assert th'.stamps[..j + 1] == th.stamps[..j + 1];
        } else if Current(th).Writing? {
          StepCommits(s, l);
        }
      } else {
        StepBegins(s, l);
      }
    }
  }

  lemma InitialHasNoPast(s: State, t: nat)
    requires Initial(s) && t < |s.threads|
    ensures s.threads[t].stamps == []
  {
  }

  /** While no section of its mutex is open, the memory of a field is the atomic memory. */
  lemma FreeMeansWhole(states: seq<State>, labels: seq<Label>, n: nat, f: Field)
    requires IsRun(states, labels) && Initial(states[0]) && n < |states|
    requires states[n].holder(Guard(f)) == None
    ensures states[n].mem(f) == Atomic(states, labels, n)(f)
  {
    hide Step, CanStep, Guard;
    RunRefines(states, labels, n);
    assert states[n].mem(f) == Pending(states[n], Atomic(states, labels, n), Guard(f))(f);
  }

  /** A value read by a completed section is the value of its field in the atomic memory at the moment
    * of the unlock, for every section whose mutex is that of its fields: no reader sees a half-written
    * struct.
    */
  lemma ReadsAreWhole(states: seq<State>, labels: seq<Label>, n: nat, t: nat, j: nat, f: Field)
    requires IsRun(states, labels) && Initial(states[0]) && n < |states|
    requires t < |states[n].threads| && j + 1 < |states[n].threads[t].stamps|
    requires j < |Program(states[n].threads[t].activity)| && Program(states[n].threads[t].activity)[j].Reading?
    requires Guarded(Program(states[n].threads[t].activity)[j])
    requires f in Program(states[n].threads[t].activity)[j].fields
    ensures var moment := states[n].threads[t].stamps[j + 1];
            && moment <= n
            && states[moment].holder(Guard(f)) == None
            && states[n].threads[t].regs(f) == states[moment].mem(f) == Atomic(states, labels, moment)(f)
  {
    hide Step, CanStep, Guard, Program, Began, Initial;
    var th := states[n].threads[t];
    ProgramsGuarded(th.activity, j);
    RunHistory(states, labels, n, t);
    assert Remembers(states, th, j);
    var k :| 0 <= k < |Program(th.activity)[j].fields| && Program(th.activity)[j].fields[k] == f;
    FreeMeansWhole(states, labels, th.stamps[j + 1], f);
  }

  /** The group of an information report in which a field is read. */
  function ReportGroup(f: Field): (g: Option<nat>)
    ensures g.Some? ==> g.value < 7
  {
    match f
    case Lat | Lon | InView | InUse | Dilution => Some(0)
    case SurgePort | SurgeStarboard | HeaveA | HeaveB => Some(1)
    case Pitch | Roll | Yaw => Some(2)
    case DesiredPitch | DesiredRoll | DesiredYaw | DesiredDepth => Some(3)
    case Mode => Some(4)
    case Kp | Ki | Kd => Some(5)
    case DepthFt | DepthM | Temperature => Some(6)
    case InitialPitch | InitialRoll | InitialYaw | LedsOn | LaserOn | LaOn => None
  }

  lemma PositionGroup(f: Field)
    requires ReportGroup(f) == Some(0)
    ensures |Program(GetInfo)| == 7 && Program(GetInfo)[0].Reading? && f in Program(GetInfo)[0].fields
  {
    var fields := Program(GetInfo)[0].fields;
    assert fields[0] == Lat && fields[1] == Lon && fields[2] == InView && fields[3] == InUse && fields[4] == Dilution;
  }

  lemma EarlyGroups(f: Field)
    requires ReportGroup(f) == Some(1) || ReportGroup(f) == Some(2)
    ensures |Program(GetInfo)| == 7
    ensures var b := Program(GetInfo)[ReportGroup(f).value]; b.Reading? && f in b.fields
  {
    var fields := Program(GetInfo)[ReportGroup(f).value].fields;
    if f == SurgePort || f == Pitch {
      assert fields[0] == f;
    } else if f == SurgeStarboard || f == Roll {
      assert fields[1] == f;
    } else if f == HeaveA || f == Yaw {
      assert fields[2] == f;
    } else {
      assert fields[3] == f;
    }
  }

  lemma LateGroups(f: Field)
    requires ReportGroup(f).Some? && ReportGroup(f).value >= 3
    ensures |Program(GetInfo)| == 7
    ensures var b := Program(GetInfo)[ReportGroup(f).value]; b.Reading? && f in b.fields
  {
    var fields := Program(GetInfo)[ReportGroup(f).value].fields;
    if f == DesiredPitch || f == Mode || f == Kp || f == DepthFt {
      assert fields[0] == f;
    } else if f == DesiredRoll || f == Ki || f == DepthM {
      assert fields[1] == f;
    } else if f == DesiredYaw || f == Kd || f == Temperature {
      assert fields[2] == f;
    } else {
      assert fields[3] == f;
    }
  }

  /** In every interleaving, each of the seven groups of an information report is the value its fields
    * had together at one moment, not torn by any writer, and the seven moments follow each other in
    * lock order between the beginning of the report and now.
    */
  lemma InfoIsSevenMoments(states: seq<State>, labels: seq<Label>, n: nat, t: nat)
    requires IsRun(states, labels) && Initial(states[0]) && n < |states|
    requires t < |states[n].threads|
    requires states[n].threads[t].activity == GetInfo && |states[n].threads[t].stamps| == 8
    ensures var stamps := states[n].threads[t].stamps;
            && 1 <= stamps[0] <= |labels| && labels[stamps[0] - 1].t == t
            && labels[stamps[0] - 1].choice.Begin? && labels[stamps[0] - 1].choice.activity == GetInfo
            && (forall i, j :: 0 <= i < j < 8 ==> stamps[i] < stamps[j] <= n)
    ensures forall f :: ReportGroup(f).Some? ==>
              states[n].threads[t].regs(f)
                == Atomic(states, labels, states[n].threads[t].stamps[ReportGroup(f).value + 1])(f)
  {
    hide Step, CanStep, Guard, Program, Remembers, Initial, ReportGroup;
    RunHistory(states, labels, n, t);
    forall f | ReportGroup(f).Some?
      ensures states[n].threads[t].regs(f)
           == Atomic(states, labels, states[n].threads[t].stamps[ReportGroup(f).value + 1])(f)
    {
      if ReportGroup(f).value == 0 {
        PositionGroup(f);
      } else if ReportGroup(f).value < 3 {
        EarlyGroups(f);
      } else {
        LateGroups(f);
      }
      ProgramsGuarded(GetInfo, ReportGroup(f).value);
      ReadsAreWhole(states, labels, n, t, ReportGroup(f).value, f);
    }
  }

  // ---------------------------------------------------------------------------------------------
  // The initial orientation
  // ---------------------------------------------------------------------------------------------

  datatype Angles = Angles(pitch: real, roll: real, yaw: real)

  function OrientationIn(s: Store): Angles {
    Angles(s(Pitch), s(Roll), s(Yaw))
  }

  function InitialOrientationIn(s: Store): Angles {
    Angles(s(InitialPitch), s(InitialRoll), s(InitialYaw))
  }

  const COPY_ORIENTATION := [Move(InitialPitch, Pitch), Move(InitialRoll, Roll), Move(InitialYaw, Yaw)]

  /** Only set_current_orientation writes the initial orientation, in its second section. */
  lemma InitialOrientationWriters(a: Activity, pc: nat)
    requires pc < |Program(a)| && Program(a)[pc].Writing? && Program(a)[pc].m == InitialOrientationMutex
    ensures a == SetCurrentOrientation && pc == 1
    ensures Program(a)[0] == READ_ORIENTATION && Program(a)[1].moves == COPY_ORIENTATION
  {
  }

  lemma OrientationCopied(a: Store, regs: Store)
    ensures InitialOrientationIn(Moved(a, regs, COPY_ORIENTATION)) == OrientationIn(regs)
  {
    MovedTo(a, regs, COPY_ORIENTATION, 0);
    MovedTo(a, regs, COPY_ORIENTATION, 1);
    MovedTo(a, regs, COPY_ORIENTATION, 2);
  }

  lemma ReadsOrientation()
    ensures Pitch in READ_ORIENTATION.fields && Roll in READ_ORIENTATION.fields && Yaw in READ_ORIENTATION.fields
    ensures READ_ORIENTATION.Reading?
  {
    assert READ_ORIENTATION.fields[0] == Pitch;
    assert READ_ORIENTATION.fields[1] == Roll;
    assert READ_ORIENTATION.fields[2] == Yaw;
  }

  /** v is an orientation that the shared one had, whole, at some step up to n. */
  ghost predicate WasOrientation(states: seq<State>, n: nat, v: Angles)
    requires n < |states|
  {
    exists k :: 0 <= k <= n && states[k].holder(OrientationMutex) == None && OrientationIn(states[k].mem) == v
  }

  /** A copy of the orientation that is about to be completed is a past orientation. */
  lemma CopyIsPast(states: seq<State>, labels: seq<Label>, n: nat, t: nat)
    requires IsRun(states, labels) && Initial(states[0]) && n < |states| && t < |states[n].threads|
    requires states[n].threads[t].activity == SetCurrentOrientation && states[n].threads[t].pc == 1
    requires |Program(SetCurrentOrientation)| > 1 && Program(SetCurrentOrientation)[0] == READ_ORIENTATION
    ensures WasOrientation(states, n, OrientationIn(states[n].threads[t].regs))
  {
    hide Step, CanStep, Program, Guard, Initial, Began, Remembers, READ_ORIENTATION;
    OrientationGuards();
    ReadsOrientation();
    RunHistory(states, labels, n, t);
    ProgramsGuarded(SetCurrentOrientation, 0);
    ReadsAreWhole(states, labels, n, t, 0, Pitch);
    ReadsAreWhole(states, labels, n, t, 0, Roll);
    ReadsAreWhole(states, labels, n, t, 0, Yaw);
    var k := states[n].threads[t].stamps[1];
    assert OrientationIn(states[k].mem) == OrientationIn(states[n].threads[t].regs);
  }

  /** In every interleaving the initial orientation is the one at the start or one that the current
    * orientation had, whole, at an earlier moment; a reader of the memory sees just that whenever no
    * section of its mutex is open.
    */
  lemma {:induction false} InitialOrientationIsPast(states: seq<State>, labels: seq<Label>, n: nat)
    requires IsRun(states, labels) && Initial(states[0]) && n < |states|
    ensures var v := InitialOrientationIn(Atomic(states, labels, n));
            v == InitialOrientationIn(states[0].mem) || WasOrientation(states, n, v)
    ensures states[n].holder(InitialOrientationMutex) == None ==>
              InitialOrientationIn(states[n].mem) == InitialOrientationIn(Atomic(states, labels, n))
  {
    hide Step, CanStep, Program, Guard, Initial, COPY_ORIENTATION, READ_ORIENTATION, Moved;
    OrientationGuards();
    if states[n].holder(InitialOrientationMutex) == None {
      FreeMeansWhole(states, labels, n, InitialPitch);
      FreeMeansWhole(states, labels, n, InitialRoll);
      FreeMeansWhole(states, labels, n, InitialYaw);
    }
    if n > 0 {
      InitialOrientationIsPast(states, labels, n - 1);
      var s, l, a := states[n - 1], labels[n - 1], Atomic(states, labels, n - 1);
      if Commits(s, l) {
        var th := s.threads[l.t];
        if Current(th).m == InitialOrientationMutex {
          InitialOrientationWriters(th.activity, th.pc);
          OrientationCopied(a, th.regs);
          CopyIsPast(states, labels, n - 1, l.t);
        } else {
          CurrentGuarded(th);
          MovedElsewhere(a, th.regs, Current(th).moves, Current(th).m, InitialPitch);
          MovedElsewhere(a, th.regs, Current(th).moves, Current(th).m, InitialRoll);
          MovedElsewhere(a, th.regs, Current(th).moves, Current(th).m, InitialYaw);
        }
      }
    }
  }
}

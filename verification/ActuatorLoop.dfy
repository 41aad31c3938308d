/** What the loop of the linear actuator reads. It takes another mutex than the writer of its fields, so it
  * can read the fields of different set_la commands; which ones is determined exactly here.
  */
module ActuatorLoop {
  import opened Wrappers
  import opened SharedState
  import opened Mutexes
  import opened AtomicWrites
  import opened Snapshots
  import opened Commands

  /** The fields in the order in which set_la writes them and the loop reads them. */
  function LaField(k: nat): Field
    requires k < 3
  {
    if k == 0 then LedsOn else if k == 1 then LaserOn else LaOn
  }

  // ---------------------------------------------------------------------------------------------
  // When an iteration reads
  // ---------------------------------------------------------------------------------------------

  /** In this step an iteration of the loop on thread t reads its k-th field. */
  predicate ReadsLa(s: State, l: Label, t: nat, k: nat) {
    && l.t == t && t < |s.threads| && k < 3
    && s.threads[t].activity == ActuatorIteration && s.threads[t].pc == 0 && s.threads[t].at == Inside(k)
  }

  /** The last such step before step n. */
  ghost function ReadStep(states: seq<State>, labels: seq<Label>, n: nat, t: nat, k: nat): (r: nat)
    requires n < |states| == |labels| + 1
    ensures r <= n
  {
    if n == 0 then 0
    else if ReadsLa(states[n - 1], labels[n - 1], t, k) then n - 1
    else ReadStep(states, labels, n - 1, t, k)
  }

  /** How many fields the current iteration has read. */
  function ReadsDone(th: Thread): nat {
    if th.activity != ActuatorIteration || th.stamps == [] then 0
    else if |th.stamps| > 1 then 3
    else if th.pc == 0 && th.at.Inside? && th.at.done <= 3 then th.at.done
    else 0
  }

  /** The k-th field has been read in the current iteration, in its own step, and is remembered. */
  ghost predicate HasRead(states: seq<State>, labels: seq<Label>, n: nat, t: nat, k: nat)
    requires n < |states| == |labels| + 1 && t < |states[n].threads| && k < 3
  {
    var th, r := states[n].threads[t], ReadStep(states, labels, n, t, k);
    && th.stamps != [] && th.stamps[0] <= r < n && ReadsLa(states[r], labels[r], t, k)
    && (|th.stamps| > 1 ==> r < th.stamps[1])
    && th.regs(LaField(k)) == states[r].mem(LaField(k))
    && (k > 0 ==> ReadStep(states, labels, n, t, k - 1) < r)
  }

  /** A step of the loop reads the next field, or reads nothing and forgets nothing. */
  lemma ActuatorStep(s: State, l: Label)
    requires CanStep(s, l) && Busy(s.threads[l.t]) && s.threads[l.t].activity == ActuatorIteration
    requires StampsOk(s.threads[l.t], s.now) && PlaceOk(s.threads[l.t]) && s.threads[l.t].pc == 0
    ensures l.t < |Step(s, l).threads|
    ensures var th, th' := s.threads[l.t], Step(s, l).threads[l.t];
            && (th.at.Inside? ==> th.at.done <= 3)
            && |th.stamps| == 1 && th'.activity == ActuatorIteration && th'.stamps[..1] == th.stamps
            && (th.at.Inside? && th.at.done < 3 ==>
                  && th' == th.(at := Inside(th.at.done + 1),
                                regs := Put(th.regs, LaField(th.at.done), s.mem(LaField(th.at.done)))))
            && (!(th.at.Inside? && th.at.done < 3) ==> th'.regs == th.regs)
            && (th.at.Outside? ==> th' == th.(at := Inside(0)))
            && (th.at.Inside? && th.at.done >= 3 ==> th'.stamps == th.stamps + [s.now + 1])
  {
    hide Program;
    LaPrograms();
  }

  lemma ActuatorHasOneBlock(th: Thread)
    ensures th.activity == ActuatorIteration ==> (Busy(th) <==> th.pc == 0)
  {
  }

  lemma StepHasRead(states: seq<State>, labels: seq<Label>, n: nat, t: nat, k: nat)
    requires IsRun(states, labels) && n < |labels| && states[n].now == n
    requires t < |states[n].threads| == |states[n + 1].threads| && StampsOk(states[n].threads[t], n)
    requires PlaceOk(states[n].threads[t])
    requires k < ReadsDone(states[n].threads[t]) ==> HasRead(states, labels, n, t, k)
    requires 0 < k <= ReadsDone(states[n].threads[t]) ==> HasRead(states, labels, n, t, k - 1)
    requires k < ReadsDone(states[n + 1].threads[t])
    ensures k < 3 && HasRead(states, labels, n + 1, t, k)
  {
    hide Step, CanStep, Program, PlaceOk, Finish;
    var s, l := states[n], labels[n];
    var th, th' := s.threads[t], states[n + 1].threads[t];
    StepOthers(s, l, t);
    if l.t == t {
      if Busy(th) {
        StepContinues(s, l);
        ActuatorHasOneBlock(th);
        assert th.activity == ActuatorIteration;
        ActuatorStep(s, l);
      } else {
        StepBegins(s, l);
      }
    }
  }

  lemma {:induction false} RunHasRead(states: seq<State>, labels: seq<Label>, n: nat, t: nat, k: nat)
    requires IsRun(states, labels) && Initial(states[0]) && n < |states| && t < |states[n].threads|
    requires k < ReadsDone(states[n].threads[t])
    ensures k < 3 && HasRead(states, labels, n, t, k)
    decreases n, k
  {
    hide Step, CanStep, Program, Initial, Began, Remembers, HasRead, StampsOk, PlaceOk;
    if n == 0 {
      NothingRead(states[0], t);
    } else {
      StepOthers(states[n - 1], labels[n - 1], t);
      RunHistory(states, labels, n - 1, t);
      RunExclusive(states, labels, n - 1);
      if k < ReadsDone(states[n - 1].threads[t]) {
        RunHasRead(states, labels, n - 1, t, k);
      }
      if 0 < k <= ReadsDone(states[n - 1].threads[t]) {
        RunHasRead(states, labels, n - 1, t, k - 1);
      }
      StepHasRead(states, labels, n - 1, t, k);
    }
  }

  lemma NothingRead(s: State, t: nat)
    requires Initial(s) && t < |s.threads|
    ensures ReadsDone(s.threads[t]) == 0
  {
  }

  // ---------------------------------------------------------------------------------------------
  // Reading while the writer's mutex is free
  // ---------------------------------------------------------------------------------------------

  /** A field is written only under its mutex. */
  lemma FreeStepKeeps(s: State, l: Label, f: Field)
    requires Exclusive(s) && CanStep(s, l) && s.holder(Guard(f)) == None
    ensures Step(s, l).mem(f) == s.mem(f)
  {
    hide Program, Guard, Passes, Allowed, WithComputed;
    var th := s.threads[l.t];
    if Busy(th) && Current(th).Writing? && th.at.Inside? {
      assert PlaceOk(th);
      CurrentGuarded(th);
      assert Holds(th, Current(th).m);
    }
  }

  lemma {:induction false} FreeRunKeeps(states: seq<State>, labels: seq<Label>, m: nat, n: nat, f: Field)
    requires IsRun(states, labels) && Initial(states[0]) && m <= n < |states|
    requires forall k :: m <= k < n ==> states[k].holder(Guard(f)) == None
    ensures states[n].mem(f) == states[m].mem(f)
  {
    hide Step, CanStep, Initial, Guard;
    if m < n {
      FreeRunKeeps(states, labels, m, n - 1, f);
      RunExclusive(states, labels, n - 1);
      assert states[n - 1].holder(Guard(f)) == None;
      FreeStepKeeps(states[n - 1], labels[n - 1], f);
    }
  }

  lemma LaFieldGuards(k: nat)
    requires k < 3
    ensures Guard(LaField(k)) == LinearActuatorMutex
  {
  }

  /** No section of set_la is open from the first read of the iteration to its last. */
  ghost predicate UndisturbedReads(states: seq<State>, labels: seq<Label>, n: nat, t: nat)
    requires n < |states| == |labels| + 1
  {
    forall k :: ReadStep(states, labels, n, t, 0) <= k <= ReadStep(states, labels, n, t, 2) ==>
                  states[k].holder(LinearActuatorMutex) == None
  }

  /** An undisturbed iteration of the loop does read a whole state: that of the moment of its last read. */
  lemma ActuatorReadsWhole(states: seq<State>, labels: seq<Label>, n: nat, t: nat)
    requires IsRun(states, labels) && Initial(states[0]) && n < |states| && t < |states[n].threads|
    requires states[n].threads[t].activity == ActuatorIteration && |states[n].threads[t].stamps| > 1
    ensures var moment, stamps := ReadStep(states, labels, n, t, 2), states[n].threads[t].stamps;
            && stamps[0] <= moment < stamps[1]
            && (UndisturbedReads(states, labels, n, t) ==>
                  SwitchesIn(states[n].threads[t].regs) == SwitchesIn(Atomic(states, labels, moment)))
  {
    hide Step, CanStep, Initial, Guard, Program, ReadStep, ReadsLa, Atomic;
    var th, moment := states[n].threads[t], ReadStep(states, labels, n, t, 2);
    RunHasRead(states, labels, n, t, 0);
    RunHasRead(states, labels, n, t, 1);
    RunHasRead(states, labels, n, t, 2);
    if UndisturbedReads(states, labels, n, t) {
      forall k | 0 <= k < 3
        ensures th.regs(LaField(k)) == Atomic(states, labels, moment)(LaField(k))
      {
        LaFieldGuards(k);
        FreeRunKeeps(states, labels, ReadStep(states, labels, n, t, k), moment, LaField(k));
        FreeMeansWhole(states, labels, moment, LaField(k));
      }
      assert th.regs(LaField(0)) == th.regs(LedsOn) && th.regs(LaField(1)) == th.regs(LaserOn);
      assert th.regs(LaField(2)) == th.regs(LaOn);
    }
  }

  // ---------------------------------------------------------------------------------------------
  // Reading in any interleaving
  // ---------------------------------------------------------------------------------------------

  /** In this step set_la writes its k-th field. */
  predicate WritesLa(s: State, l: Label, k: nat) {
    && l.t < |s.threads| && k < 3
    && s.threads[l.t].activity == SetLa && s.threads[l.t].pc == 0 && s.threads[l.t].at == Inside(k)
  }

  /** How often the k-th field has been written before step n. */
  ghost function Writes(states: seq<State>, labels: seq<Label>, n: nat, k: nat): nat
    requires n < |states| == |labels| + 1
  {
    if n == 0 then 0
    else Writes(states, labels, n - 1, k) + if WritesLa(states[n - 1], labels[n - 1], k) then 1 else 0
  }

  /** The state at the start and those of the set_la commands, in the order in which they begin to write. */
  ghost function Called(states: seq<State>, labels: seq<Label>, n: nat): (c: seq<Switches>)
    requires n < |states| == |labels| + 1
    ensures |c| == 1 + Writes(states, labels, n, 0)
  {
    if n == 0 then [SwitchesIn(states[0].mem)]
    else
      var s, l := states[n - 1], labels[n - 1];
      Called(states, labels, n - 1) + if WritesLa(s, l, 0) then [SwitchesIn(s.threads[l.t].regs)] else []
  }

  /** How many fields the holder of the mutex has written; 0 if it is free. */
  function WrittenByHolder(s: State): nat {
    match s.holder(LinearActuatorMutex)
    case None => 0
    case Some(t) =>
      if t < |s.threads| && s.threads[t].activity == SetLa && s.threads[t].at.Inside? then s.threads[t].at.done else 0
  }

  /** The memory holds, field by field, the latest command to have written the field. */
  predicate Mixed(s: State, c: seq<Switches>, i: nat, j: nat) {
    && i < |c| && j < |c|
    && SwitchesIn(s.mem) == Switches(c[|c| - 1].leds, c[i].laser, c[j].la)
    && var d := WrittenByHolder(s);
       && i == (if d == 1 then |c| - 2 else |c| - 1)
       && j == (if d == 1 || d == 2 then |c| - 2 else |c| - 1)
       && (d > 0 ==> c[|c| - 1] == SwitchesIn(s.threads[s.holder(LinearActuatorMutex).value].regs))
  }

  /** set_la writes its fields in order, while it holds the mutex. */
  lemma StepWritesLa(s: State, l: Label, k: nat)
    requires Exclusive(s) && CanStep(s, l) && WritesLa(s, l, k)
    ensures s.holder(LinearActuatorMutex) == Some(l.t) == Step(s, l).holder(LinearActuatorMutex)
    ensures Step(s, l).mem == Put(s.mem, LaField(k), s.threads[l.t].regs(LaField(k)))
    ensures l.t < |Step(s, l).threads| && Step(s, l).threads[l.t] == s.threads[l.t].(at := Inside(k + 1))
  {
    hide Program;
    LaPrograms();
    assert PlaceOk(s.threads[l.t]);
    assert Holds(s.threads[l.t], LinearActuatorMutex);
  }

  lemma OnlyLaWrites(s: State, l: Label, f: Field)
    requires Exclusive(s) && CanStep(s, l) && Guard(f) == LinearActuatorMutex
    requires forall k :: 0 <= k < 3 ==> !WritesLa(s, l, k)
    ensures Step(s, l).mem(f) == s.mem(f)
  {
    hide Program, Guard, Passes, Allowed, WithComputed;
    var th := s.threads[l.t];
    if Busy(th) && Current(th).Writing? && th.at.Inside? && th.at.done < |Current(th).moves| {
      assert !WritesLa(s, l, th.at.done);
      CurrentGuarded(th);
      if Current(th).m == LinearActuatorMutex {
        LaWriters(th);
        LaPrograms();
      }
    }
  }

  /** No other step changes the fields, or leaves a section of set_la half written. */
  lemma StepKeepsLa(s: State, l: Label)
    requires Exclusive(s) && CanStep(s, l) && forall k :: 0 <= k < 3 ==> !WritesLa(s, l, k)
    ensures SwitchesIn(Step(s, l).mem) == SwitchesIn(s.mem)
    ensures var d, d', h := WrittenByHolder(s), WrittenByHolder(Step(s, l)), s.holder(LinearActuatorMutex);
            || (d' == 0 && d != 1 && d != 2)
            || (d' == d && Step(s, l).holder(LinearActuatorMutex) == h
                && (d > 0 ==>
                      && h.value < |Step(s, l).threads|
                      && Step(s, l).threads[h.value].regs == s.threads[h.value].regs))
  {
    hide Program, Passes, Allowed, WithComputed, Step;
    CommandGuards();
    OnlyLaWrites(s, l, LedsOn);
    OnlyLaWrites(s, l, LaserOn);
    OnlyLaWrites(s, l, LaOn);
    StepHolder(s, l);
  }

  lemma StepHolder(s: State, l: Label)
    requires Exclusive(s) && CanStep(s, l) && forall k :: 0 <= k < 3 ==> !WritesLa(s, l, k)
    ensures var d, d', h := WrittenByHolder(s), WrittenByHolder(Step(s, l)), s.holder(LinearActuatorMutex);
            || (d' == 0 && d != 1 && d != 2)
            || (d' == d && Step(s, l).holder(LinearActuatorMutex) == h
                && (d > 0 ==>
                      && h.value < |Step(s, l).threads|
                      && Step(s, l).threads[h.value].regs == s.threads[h.value].regs))
  {
    hide Program, Passes, Allowed, WithComputed;
    LaPrograms();
    match s.holder(LinearActuatorMutex)
    case None =>
    case Some(t) =>
      assert Holds(s.threads[t], LinearActuatorMutex) && PlaceOk(s.threads[t]);
      StepOthers(s, l, t);
      if l.t != t {
        assert !Holds(s.threads[l.t], LinearActuatorMutex);
      } else if s.threads[t].activity == SetLa {
        assert s.threads[t].pc == 0;
        assert !WritesLa(s, l, 0) && !WritesLa(s, l, 1) && !WritesLa(s, l, 2);
      }
  }

  /** In any interleaving the memory of the linear actuator is made of the latest commands to write each
    * field: the last one begun, and the one before it for what the last has not written yet.
    */
  lemma {:induction false} MemoryIsMixed(states: seq<State>, labels: seq<Label>, n: nat)
    requires IsRun(states, labels) && Initial(states[0]) && n < |states|
    ensures Mixed(states[n], Called(states, labels, n), Writes(states, labels, n, 1), Writes(states, labels, n, 2))
  {
    hide Step, CanStep, Initial, Mixed, WritesLa;
    if n == 0 {
      InitiallyMixed(states[0]);
    } else {
      var s, l := states[n - 1], labels[n - 1];
      MemoryIsMixed(states, labels, n - 1);
      RunExclusive(states, labels, n - 1);
      var c, i, j := Called(states, labels, n - 1), Writes(states, labels, n - 1, 1), Writes(states, labels, n - 1, 2);
      if k: nat :| WritesLa(s, l, k) {
        StepMixesMore(s, l, k, c, i, j);
        assert Called(states, labels, n) == if k == 0 then c + [SwitchesIn(s.threads[l.t].regs)] else c;
      } else {
        assert Called(states, labels, n) == c;
        StepKeepsMixed(s, l, c, i, j);
      }
    }
  }

  lemma InitiallyMixed(s: State)
    requires Initial(s)
    ensures Mixed(s, [SwitchesIn(s.mem)], 0, 0)
  {
  }

  lemma StepKeepsMixed(s: State, l: Label, c: seq<Switches>, i: nat, j: nat)
    requires Exclusive(s) && CanStep(s, l) && Mixed(s, c, i, j) && forall k :: 0 <= k < 3 ==> !WritesLa(s, l, k)
    ensures Mixed(Step(s, l), c, i, j)
  {
    hide Step, CanStep, WritesLa;
    StepKeepsLa(s, l);
  }

  lemma StepMixesMore(s: State, l: Label, k: nat, c: seq<Switches>, i: nat, j: nat)
    requires Exclusive(s) && CanStep(s, l) && Mixed(s, c, i, j) && WritesLa(s, l, k)
    ensures l.t < |s.threads| && k < 3 && forall m :: 0 <= m < 3 && m != k ==> !WritesLa(s, l, m)
    ensures Mixed(Step(s, l), if k == 0 then c + [SwitchesIn(s.threads[l.t].regs)] else c,
                  if k == 1 then i + 1 else i, if k == 2 then j + 1 else j)
  {
    hide Step, CanStep, Program, Guard;
    StepWritesLa(s, l, k);
  }

  lemma {:induction false} CalledGrows(states: seq<State>, labels: seq<Label>, m: nat, n: nat)
    requires m <= n < |states| == |labels| + 1
    ensures |Called(states, labels, m)| <= |Called(states, labels, n)|
    ensures forall k :: 0 <= k < |Called(states, labels, m)| ==>
              Called(states, labels, n)[k] == Called(states, labels, m)[k]
  {
    hide WritesLa;
    if m < n {
      CalledGrows(states, labels, m, n - 1);
    }
  }

  /** In any interleaving an iteration reads each field from the latest command that had written it when
    * it was read.
    */
  lemma ActuatorReadsExactly(states: seq<State>, labels: seq<Label>, n: nat, t: nat)
    requires IsRun(states, labels) && Initial(states[0]) && n < |states| && t < |states[n].threads|
    requires states[n].threads[t].activity == ActuatorIteration && |states[n].threads[t].stamps| > 1
    ensures var c, leds, laser, la := Called(states, labels, n), LatestRead(states, labels, n, t, 0),
                                      LatestRead(states, labels, n, t, 1), LatestRead(states, labels, n, t, 2);
            && leds < |c| && laser < |c| && la < |c|
            && SwitchesIn(states[n].threads[t].regs) == Switches(c[leds].leds, c[laser].laser, c[la].la)
  {
    hide Step, CanStep, Initial, Program, ReadStep, ReadsLa, WritesLa, Called, Writes, WrittenByHolder;
    forall k | 0 <= k < 3
      ensures HasRead(states, labels, n, t, k)
      ensures var r := ReadStep(states, labels, n, t, k);
              && Mixed(states[r], Called(states, labels, r), Writes(states, labels, r, 1), Writes(states, labels, r, 2))
              && |Called(states, labels, r)| <= |Called(states, labels, n)|
              && forall i :: 0 <= i < |Called(states, labels, r)| ==>
                   Called(states, labels, n)[i] == Called(states, labels, r)[i]
    {
      RunHasRead(states, labels, n, t, k);
      MemoryIsMixed(states, labels, ReadStep(states, labels, n, t, k));
      CalledGrows(states, labels, ReadStep(states, labels, n, t, k), n);
    }
    var th := states[n].threads[t];
    assert th.regs(LaField(0)) == th.regs(LedsOn) && th.regs(LaField(1)) == th.regs(LaserOn);
    assert th.regs(LaField(2)) == th.regs(LaOn);
  }

  /** The command, by its place among those called, whose k-th field the iteration has read. */
  ghost function LatestRead(states: seq<State>, labels: seq<Label>, n: nat, t: nat, k: nat): nat
    requires n < |states| == |labels| + 1
  {
    Writes(states, labels, ReadStep(states, labels, n, t, k), k)
  }

  /** set_la never switches the leds on. */
  lemma CallsLedsOff(states: seq<State>, labels: seq<Label>, n: nat, t: nat)
    requires IsRun(states, labels) && Initial(states[0]) && n < |labels| && t < |states[n].threads|
    requires states[n].threads[t].activity == SetLa && Busy(states[n].threads[t])
    ensures states[n].threads[t].regs(LedsOn) == 0.0
  {
    hide Step, Initial, Program, Keeps, Sets, Remembers, Allowed;
    RunHistory(states, labels, n, t);
    SetsLeds();
    SettersKeepArguments(SetLa, LedsOn);
    var b := states[n].threads[t].stamps[0] - 1;
    assert CanStep(states[b], labels[b]);
  }

  lemma SetsLeds()
    ensures Sets(SetLa, LedsOn)
  {
  }

  lemma {:induction false} LedsStayOff(states: seq<State>, labels: seq<Label>, n: nat)
    requires IsRun(states, labels) && Initial(states[0]) && n < |states| && states[0].mem(LedsOn) == 0.0
    ensures forall k :: 0 <= k < |Called(states, labels, n)| ==> Called(states, labels, n)[k].leds == 0.0
  {
    hide Step, CanStep, Initial, Program;
    if n > 0 {
      LedsStayOff(states, labels, n - 1);
      var s, l := states[n - 1], labels[n - 1];
      if WritesLa(s, l, 0) {
        SetLaHasOneBlock(s.threads[l.t]);
        CallsLedsOff(states, labels, n - 1, l.t);
      }
    }
  }

  lemma SetLaHasOneBlock(th: Thread)
    requires th.activity == SetLa && th.pc == 0
    ensures Busy(th)
  {
  }

  /** No two commands agree on a switch, so that each value read tells the command. */
  predicate Distinct(c: seq<Switches>) {
    forall i, j :: 0 <= i < j < |c| ==> c[i].laser != c[j].laser && c[i].la != c[j].la
  }

  /** An iteration reads the state of one command if it reads laser and actuator after the same number of
    * writes; and only then, as far as the values of the commands can tell.
    */
  lemma ActuatorReadsWholeExactlyWhen(states: seq<State>, labels: seq<Label>, n: nat, t: nat)
    requires IsRun(states, labels) && Initial(states[0]) && n < |states| && t < |states[n].threads|
    requires states[n].threads[t].activity == ActuatorIteration && |states[n].threads[t].stamps| > 1
    requires states[0].mem(LedsOn) == 0.0
    ensures var c, laser, la, read := Called(states, labels, n), LatestRead(states, labels, n, t, 1),
                                      LatestRead(states, labels, n, t, 2), SwitchesIn(states[n].threads[t].regs);
            && (laser == la ==> laser < |c| && read == c[laser])
            && (Distinct(c) ==> (read in c <==> laser == la))
  {
    hide Step, CanStep, Initial, Program, Called, LatestRead, SwitchesIn;
    ActuatorReadsExactly(states, labels, n, t);
    LedsStayOff(states, labels, n);
  }
}

/** Who holds which mutex: mutual exclusion, freedom from deadlock, and progress. */
module Mutexes {
  import opened Wrappers
  import opened SharedState

  /** The thread is between the lock and the unlock of m. */
  predicate Holds(th: Thread, m: Mutex) {
    Busy(th) && IsSection(Current(th)) && Current(th).m == m && th.at.Inside?
  }

  /** A thread is inside nothing but a section, and not beyond its end. */
  predicate PlaceOk(th: Thread) {
    th.at.Inside? ==> Busy(th) && IsSection(Current(th)) && th.at.done <= Steps(Current(th))
  }

  /** The threads inside a section of m are exactly the one recorded as holding m. */
  ghost predicate Exclusive(s: State) {
    && (forall t :: 0 <= t < |s.threads| ==> PlaceOk(s.threads[t]))
    && (forall t, m: Mutex :: 0 <= t < |s.threads| ==> (Holds(s.threads[t], m) <==> s.holder(m) == Some(t)))
    && (forall m: Mutex :: s.holder(m).Some? ==> s.holder(m).value < |s.threads|)
  }

  // A step changes one thread only, which begins an activity or continues the one it has.

  lemma StepOthers(s: State, l: Label, t: nat)
    requires CanStep(s, l)
    ensures |Step(s, l).threads| == |s.threads| && Step(s, l).now == s.now + 1
    ensures t < |s.threads| && t != l.t ==> Step(s, l).threads[t] == s.threads[t]
  {
    hide Program, Passes, Allowed, WithComputed;
  }

  lemma StepBegins(s: State, l: Label)
    requires CanStep(s, l) && !Busy(s.threads[l.t])
    ensures l.choice.Begin?
    ensures Step(s, l) == WithThread(s, l.t, Thread(l.choice.activity, 0, Outside, l.choice.args, [s.now + 1]))
  {
  }

  lemma StepContinues(s: State, l: Label)
    requires CanStep(s, l) && Busy(s.threads[l.t])
    ensures l.t < |Step(s, l).threads|
    ensures var th, th' := s.threads[l.t], Step(s, l).threads[l.t];
            && th'.activity == th.activity
            && (|| th'.stamps == th.stamps
                || (th'.stamps == th.stamps + [s.now + 1] && th' == Finish(th.(regs := th'.regs), s.now + 1)))
            && (th'.pc == th.pc ==> th'.stamps == th.stamps)
            && (th'.pc == th.pc || th'.pc == th.pc + 1 || th'.pc == |Program(th.activity)|)
  {
    hide Program, Passes, Allowed, WithComputed;
  }

  lemma StepExclusive(s: State, l: Label)
    requires Exclusive(s) && CanStep(s, l)
    ensures Exclusive(Step(s, l))
  {
    hide Program, Passes, Allowed, WithComputed;
    var s' := Step(s, l);
    var th, th' := s.threads[l.t], s'.threads[l.t];
    assert PlaceOk(th);
    assert forall u :: 0 <= u < |s.threads| && u != l.t ==> s'.threads[u] == s.threads[u];
    forall u, m: Mutex | 0 <= u < |s.threads|
      ensures Holds(s'.threads[u], m) <==> s'.holder(m) == Some(u)
    {
      assert Holds(s.threads[u], m) <==> s.holder(m) == Some(u);
      assert Holds(th, m) <==> s.holder(m) == Some(l.t);
    }
  }

  lemma {:induction false} RunExclusive(states: seq<State>, labels: seq<Label>, n: nat)
    requires IsRun(states, labels) && Initial(states[0]) && n < |states|
    ensures Exclusive(states[n])
  {
    if n == 0 {
    } else {
      RunExclusive(states, labels, n - 1);
      StepExclusive(states[n - 1], labels[n - 1]);
    }
  }

  // ---------------------------------------------------------------------------------------------
  // Single steps, spelled out
  // ---------------------------------------------------------------------------------------------

  lemma Locks(s: State, t: nat)
    requires t < |s.threads| && Busy(s.threads[t]) && IsSection(Current(s.threads[t]))
    requires s.threads[t].at.Outside? && s.holder(Current(s.threads[t]).m) == None
    ensures CanStep(s, Label(t, Go))
    ensures var th := s.threads[t];
            Step(s, Label(t, Go))
              == WithThread(s.(holder := SetHolder(s.holder, Current(th).m, Some(t))), t, th.(at := Inside(0)))
  {
    hide Program;
  }

  lemma Reads(s: State, t: nat)
    requires t < |s.threads| && Busy(s.threads[t]) && Current(s.threads[t]).Reading? && s.threads[t].at.Inside?
    requires s.threads[t].at.done < |Current(s.threads[t]).fields|
    ensures CanStep(s, Label(t, Go))
    ensures var th := s.threads[t];
            var f := Current(th).fields[th.at.done];
            Step(s, Label(t, Go))
              == WithThread(s, t, th.(at := Inside(th.at.done + 1), regs := Put(th.regs, f, s.mem(f))))
  {
    hide Program;
  }

  lemma Writes(s: State, t: nat)
    requires t < |s.threads| && Busy(s.threads[t]) && Current(s.threads[t]).Writing? && s.threads[t].at.Inside?
    requires s.threads[t].at.done < |Current(s.threads[t]).moves|
    ensures CanStep(s, Label(t, Go))
    ensures var th := s.threads[t];
            var v := Current(th).moves[th.at.done];
            Step(s, Label(t, Go))
              == WithThread(s.(mem := Put(s.mem, v.to, th.regs(v.from))), t, th.(at := Inside(th.at.done + 1)))
  {
    hide Program;
  }

  lemma Unlocks(s: State, t: nat)
    requires t < |s.threads| && Busy(s.threads[t]) && IsSection(Current(s.threads[t]))
    requires s.threads[t].at == Inside(Steps(Current(s.threads[t])))
    ensures CanStep(s, Label(t, Go))
    ensures var th := s.threads[t];
            Step(s, Label(t, Go))
              == WithThread(s.(holder := SetHolder(s.holder, Current(th).m, None)), t, Finish(th, s.now + 1))
  {
    hide Program;
  }

  lemma BeginsWith(s: State, t: nat, a: Activity, args: Store)
    requires t < |s.threads| && !Busy(s.threads[t]) && Admissible(a, args)
    ensures CanStep(s, Label(t, Begin(a, args)))
    ensures Step(s, Label(t, Begin(a, args))) == WithThread(s, t, Thread(a, 0, Outside, args, [s.now + 1]))
  {
    hide Program;
  }

  // ---------------------------------------------------------------------------------------------
  // Freedom from deadlock
  // ---------------------------------------------------------------------------------------------

  /** A thread that holds a mutex holds no other and never has to wait. */
  lemma HolderNeverWaits(states: seq<State>, labels: seq<Label>, n: nat, t: nat, m: Mutex)
    requires IsRun(states, labels) && Initial(states[0]) && n < |states|
    requires states[n].holder(m) == Some(t)
    ensures CanStep(states[n], Label(t, Go))
    ensures forall other: Mutex :: states[n].holder(other) == Some(t) ==> other == m
  {
    hide Program, Step;
    RunExclusive(states, labels, n);
    var th := states[n].threads[t];
    assert Holds(th, m);
    forall other: Mutex | states[n].holder(other) == Some(t)
      ensures other == m
    {
      assert Holds(th, other);
    }
  }

  /** The thread to blame while t cannot step: whoever holds the mutex t waits for. */
  function Blamed(s: State, t: nat): (u: nat)
    requires t < |s.threads| && Busy(s.threads[t])
  {
    var th := s.threads[t];
    if IsSection(Current(th)) && th.at.Outside? && s.holder(Current(th).m).Some? then s.holder(Current(th).m).value
    else t
  }

  /** A step that continues the activity of a thread. */
  function Continue(s: State, u: nat): Label
    requires u < |s.threads| && Busy(s.threads[u])
  {
    Label(u, if Current(s.threads[u]).Compute? then Computed(_ => 30.0) else Go)
  }

  /** No interleaving deadlocks: a thread in the middle of an activity can continue, or waits for a
    * mutex whose holder can.
    */
  lemma NoDeadlock(states: seq<State>, labels: seq<Label>, n: nat, t: nat)
    requires IsRun(states, labels) && Initial(states[0]) && n < |states|
    requires t < |states[n].threads| && Busy(states[n].threads[t])
    ensures var u := Blamed(states[n], t);
            && u < |states[n].threads| && Busy(states[n].threads[u])
            && CanStep(states[n], Continue(states[n], u))
            && (u != t ==> states[n].holder(Current(states[n].threads[t]).m) == Some(u))
  {
    hide Program, Step;
    RunExclusive(states, labels, n);
    var u := Blamed(states[n], t);
    if u != t {
      assert Holds(states[n].threads[u], Current(states[n].threads[t]).m);
    } else {
      assert PlaceOk(states[n].threads[t]);
      assert forall m: Mutex :: Holds(states[n].threads[t], m) <==> states[n].holder(m) == Some(t);
    }
  }

  // ---------------------------------------------------------------------------------------------
  // Progress
  // ---------------------------------------------------------------------------------------------

  /** The steps a block takes: a section also locks and unlocks. */
  function BlockWork(b: Block): nat {
    if IsSection(b) then Steps(b) + 2 else 1
  }

  function WorkFrom(a: Activity, pc: nat): int
    decreases |Program(a)| - pc
  {
    if pc >= |Program(a)| then 0 else BlockWork(Program(a)[pc]) + WorkFrom(a, pc + 1)
  }

  /** The steps that a thread still has to take, at most. */
  function Work(th: Thread): int {
    WorkFrom(th.activity, th.pc) - if th.at.Inside? then th.at.done + 1 else 0
  }

  /** A quantity summed over the threads. */
  function Total(threads: seq<Thread>, weight: Thread -> int): int {
    if threads == [] then 0 else weight(threads[0]) + Total(threads[1..], weight)
  }

  lemma {:induction false} TotalUpdate(threads: seq<Thread>, t: nat, th: Thread, weight: Thread -> int)
    requires t < |threads|
    ensures Total(threads[t := th], weight) == Total(threads, weight) - weight(threads[t]) + weight(th)
  {
    if t == 0 {
      assert threads[0 := th][1..] == threads[1..];
    } else {
      assert threads[t := th][1..] == threads[1..][t - 1 := th];
      TotalUpdate(threads[1..], t - 1, th, weight);
    }
  }

  lemma {:induction false} TotalNonNegative(threads: seq<Thread>, weight: Thread -> int)
    requires forall t :: 0 <= t < |threads| ==> weight(threads[t]) >= 0
    ensures Total(threads, weight) >= 0
  {
    if threads != [] {
      assert weight(threads[0]) >= 0;
      TotalNonNegative(threads[1..], weight);
    }
  }

  lemma WorkFromNonNegative(a: Activity, pc: nat)
    ensures WorkFrom(a, pc) >= 0
    decreases |Program(a)| - pc
  {
    hide Program, Steps;
    if pc < |Program(a)| {
      WorkFromNonNegative(a, pc + 1);
    }
  }

  lemma WorkNonNegative(th: Thread)
    requires PlaceOk(th)
    ensures Work(th) >= 0
  {
    hide Program, Steps;
    WorkFromNonNegative(th.activity, th.pc);
    if th.at.Inside? {
      WorkFromNonNegative(th.activity, th.pc + 1);
    }
  }

  lemma StepWork(s: State, l: Label)
    requires Exclusive(s) && CanStep(s, l) && !l.choice.Begin?
    ensures l.t < |Step(s, l).threads| == |s.threads|
    ensures Work(Step(s, l).threads[l.t]) < Work(s.threads[l.t])
    ensures l.t < |s.threads| && Step(s, l).threads == s.threads[l.t := Step(s, l).threads[l.t]]
  {
    hide Program, Passes, Allowed, WithComputed;
    var th := s.threads[l.t];
    assert PlaceOk(th);
    WorkFromNonNegative(th.activity, th.pc + 1);
  }

  /** Activities end: while no thread begins a new one, the steps of all threads together are bounded
    * by the work they had left.
    */
  lemma {:induction false} ActivitiesEnd(states: seq<State>, labels: seq<Label>, start: nat, n: nat)
    requires IsRun(states, labels) && Initial(states[0]) && start <= n < |states|
    requires forall k :: start <= k < n ==> !labels[k].choice.Begin?
    ensures n - start <= Total(states[start].threads, Work) - Total(states[n].threads, Work)
    ensures Total(states[n].threads, Work) >= 0
  {
    hide Step, CanStep, Total, Work;
    RunExclusive(states, labels, n);
    forall t | 0 <= t < |states[n].threads|
      ensures Work(states[n].threads[t]) >= 0
    {
      WorkNonNegative(states[n].threads[t]);
    }
    TotalNonNegative(states[n].threads, Work);
    if start < n {
      ActivitiesEnd(states, labels, start, n - 1);
      var l := labels[n - 1];
      RunExclusive(states, labels, n - 1);
      StepWork(states[n - 1], l);
      TotalUpdate(states[n - 1].threads, l.t, states[n].threads[l.t], Work);
    }
  }
}

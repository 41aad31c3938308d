/** Sections that write field by field behave as if each wrote all its fields at once, at its unlock. */
module AtomicWrites {
  import opened Wrappers
  import opened SharedState
  import opened Mutexes

  /** A store after some moves from a thread's local variables. */
  function Moved(a: Store, regs: Store, moves: seq<Move>): Store {
    if moves == [] then a
    else
      var last := moves[|moves| - 1];
      Put(Moved(a, regs, moves[..|moves| - 1]), last.to, regs(last.from))
  }

  /** The step unlocks a writing section. */
  predicate Commits(s: State, l: Label) {
    && l.t < |s.threads|
    && var th := s.threads[l.t];
       Busy(th) && Current(th).Writing? && th.at == Inside(|Current(th).moves|)
  }

  /** The atomic memory after a step: a whole section is written when it commits. */
  function Committed(s: State, l: Label, a: Store): Store {
    if Commits(s, l) then Moved(a, s.threads[l.t].regs, Current(s.threads[l.t]).moves) else a
  }

  /** The memory of the atomic run after n steps. */
  ghost function Atomic(states: seq<State>, labels: seq<Label>, n: nat): Store
    requires n < |states| == |labels| + 1
  {
    if n == 0 then states[0].mem else Committed(states[n - 1], labels[n - 1], Atomic(states, labels, n - 1))
  }

  /** The atomic memory a, as the section that holds m has changed it so far. */
  function Pending(s: State, a: Store, m: Mutex): Store {
    match s.holder(m)
    case None => a
    case Some(t) =>
      if t < |s.threads| && Holds(s.threads[t], m) then Begun(s.threads[t], a) else a
  }

  function Begun(th: Thread, a: Store): Store
    requires Busy(th)
  {
    if Current(th).Writing? && th.at.Inside? && th.at.done <= |Current(th).moves|
    then Moved(a, th.regs, Current(th).moves[..th.at.done])
    else a
  }

  /** The memory is the atomic one, up to the sections now being written. */
  ghost predicate Refines(s: State, a: Store) {
    forall f: Field :: s.mem(f) == Pending(s, a, Guard(f))(f)
  }

  lemma {:induction false} MovedCongruent(a: Store, b: Store, regs: Store, moves: seq<Move>, f: Field)
    requires a(f) == b(f)
    ensures Moved(a, regs, moves)(f) == Moved(b, regs, moves)(f)
  {
    if moves != [] {
      MovedCongruent(a, b, regs, moves[..|moves| - 1], f);
    }
  }

  lemma {:induction false} MovedElsewhere(a: Store, regs: Store, moves: seq<Move>, m: Mutex, f: Field)
    requires Guarded(Writing(m, moves)) && Guard(f) != m
    ensures Moved(a, regs, moves)(f) == a(f)
  {
    hide Guard;
    if moves != [] {
      assert Guard(moves[|moves| - 1].to) == m;
      MovedElsewhere(a, regs, moves[..|moves| - 1], m, f);
    }
  }

  lemma CurrentGuarded(th: Thread)
    requires Busy(th) && Current(th).Writing?
    ensures Guarded(Current(th))
  {
    hide Guarded;
    if th.activity != ActuatorIteration {
      ProgramsGuarded(th.activity, th.pc);
    }
  }

  /** A step that writes one field changes the pending state of its own section alone. */
  lemma StepWriting(s: State, l: Label, a: Store)
    requires Exclusive(s) && CanStep(s, l) && Refines(s, a)
    requires Busy(s.threads[l.t]) && Current(s.threads[l.t]).Writing? && s.threads[l.t].at.Inside?
    requires s.threads[l.t].at.done < |Current(s.threads[l.t]).moves|
    ensures Refines(Step(s, l), a)
  {
    hide Program, Guard, Passes, Allowed, WithComputed;
    var s' := Step(s, l);
    var th := s.threads[l.t];
    var Writing(m, moves) := Current(th);
    var k := th.at.done;
    CurrentGuarded(th);
    assert Holds(th, m) && s.holder(m) == Some(l.t);
    assert Guard(moves[k].to) == m;
    forall f: Field
      ensures s'.mem(f) == Pending(s', a, Guard(f))(f)
    {
      assert s.mem(f) == Pending(s, a, Guard(f))(f);
      if Guard(f) == m {
        assert moves[..k + 1][..k] == moves[..k];
      } else {
        assert s.holder(Guard(f)) != Some(l.t) by {
          assert !Holds(th, Guard(f));
        }
      }
    }
  }

  /** A step that unlocks a writing section makes it part of the atomic memory. */
  lemma StepCommitting(s: State, l: Label, a: Store)
    requires Exclusive(s) && CanStep(s, l) && Refines(s, a) && Commits(s, l)
    ensures Refines(Step(s, l), Committed(s, l, a))
  {
    hide Program, Guard, Passes, Allowed, WithComputed;
    var s' := Step(s, l);
    var th := s.threads[l.t];
    var Writing(m, moves) := Current(th);
    CurrentGuarded(th);
    assert Holds(th, m) && s.holder(m) == Some(l.t);
    var a' := Committed(s, l, a);
    forall f: Field
      ensures s'.mem(f) == Pending(s', a', Guard(f))(f)
    {
      assert s.mem(f) == Pending(s, a, Guard(f))(f);
      if Guard(f) == m {
        assert moves[..|moves|] == moves;
      } else {
        assert s.holder(Guard(f)) != Some(l.t) by {
          assert !Holds(th, Guard(f));
        }
        MovedElsewhere(a, th.regs, moves, m, f);
        PendingCongruent(s, a, a', f);
      }
    }
  }

  lemma PendingCongruent(s: State, a: Store, b: Store, f: Field)
    requires a(f) == b(f)
    ensures Pending(s, a, Guard(f))(f) == Pending(s, b, Guard(f))(f)
  {
    hide Program, Guard, Moved;
    match s.holder(Guard(f))
    case None =>
    case Some(t) =>
      if && t < |s.threads| && Holds(s.threads[t], Guard(f)) && Current(s.threads[t]).Writing?
         && s.threads[t].at.done <= |Current(s.threads[t]).moves|
      {
        MovedCongruent(a, b, s.threads[t].regs, Current(s.threads[t]).moves[..s.threads[t].at.done], f);
      }
  }

  lemma StepRefines(s: State, l: Label, a: Store)
    requires Exclusive(s) && CanStep(s, l) && Refines(s, a)
    ensures Refines(Step(s, l), Committed(s, l, a))
  {
    hide Program, Guard, Passes, Allowed, WithComputed;
    var th := s.threads[l.t];
    assert PlaceOk(th);
    if Commits(s, l) {
      StepCommitting(s, l, a);
    } else if Busy(th) && Current(th).Writing? && th.at.Inside? {
      StepWriting(s, l, a);
    } else {
      var s' := Step(s, l);
      forall f: Field
        ensures s'.mem(f) == Pending(s', a, Guard(f))(f)
      {
        assert s.mem(f) == Pending(s, a, Guard(f))(f);
        assert Holds(th, Guard(f)) <==> s.holder(Guard(f)) == Some(l.t);
      }
    }
  }

  lemma {:induction false} RunRefines(states: seq<State>, labels: seq<Label>, n: nat)
    requires IsRun(states, labels) && Initial(states[0]) && n < |states|
    ensures Refines(states[n], Atomic(states, labels, n))
  {
    hide Refines, Step, CanStep, Committed;
    if n == 0 {
      InitialRefines(states[0]);
    } else {
      RunRefines(states, labels, n - 1);
      RunExclusive(states, labels, n - 1);
      StepRefines(states[n - 1], labels[n - 1], Atomic(states, labels, n - 1));
    }
  }

  lemma InitialRefines(s: State)
    requires Initial(s)
    ensures Refines(s, s.mem)
  {
  }

  /** What whole sections do, when they write different fields. */
  lemma {:induction false} MovedTo(a: Store, regs: Store, moves: seq<Move>, k: nat)
    requires k < |moves|
    requires forall i, j :: 0 <= i < j < |moves| ==> moves[i].to != moves[j].to
    ensures Moved(a, regs, moves)(moves[k].to) == regs(moves[k].from)
  {
    if k < |moves| - 1 {
      var front := moves[..|moves| - 1];
      assert front[k] == moves[k];
      MovedTo(a, regs, front, k);
    }
  }

  lemma {:induction false} MovedPast(a: Store, regs: Store, moves: seq<Move>, f: Field)
    requires forall i :: 0 <= i < |moves| ==> moves[i].to != f
    ensures Moved(a, regs, moves)(f) == a(f)
  {
    if moves != [] {
      MovedPast(a, regs, moves[..|moves| - 1], f);
    }
  }
}

/** The depth controller (src/vehicle_control/autonomous_depth.cpp). */
module DepthControl {
  import opened Wrappers
  import opened PidLoop

  const MODE_AUTON_DEPTH := 3

  /** Everything one iteration reads. */
  datatype DepthInput = DepthInput(mode: int, gains: Gains, now: TimeVal, depth: real, desired: real)

  function DepthTick(inp: DepthInput): Tick {
    Tick(inp.now, inp.desired - inp.depth)
  }

  function Saturate(x: real): real {
    if x > 65.0 then 65.0 else if x < -65.0 then -65.0 else x
  }

  // ---------------------------------------------------------------------------------------------
  // Whole runs
  // ---------------------------------------------------------------------------------------------

  /** The iterations in which the controller is active; in the others it changes nothing. */
  function ActiveTicks(ins: seq<DepthInput>): seq<Tick> {
    if ins == [] then []
    else
      var last := ins[|ins| - 1];
      ActiveTicks(ins[..|ins| - 1]) + (if last.mode == MODE_AUTON_DEPTH then [DepthTick(last)] else [])
  }

  /** The state before iteration k. */
  function StateBefore(l: Loop, ins: seq<DepthInput>, k: nat): (r: Loop)
    requires l.Valid() && k <= |ins|
    ensures r.Valid()
  {
    Run(l, ActiveTicks(ins[..k]))
  }

  /** The controller divides by its time step in every active iteration. */
  predicate TimeMoves(l: Loop, ins: seq<DepthInput>)
    requires l.Valid()
  {
    forall k :: 0 <= k < |ins| && ins[k].mode == MODE_AUTON_DEPTH ==>
                  TimeStep(StateBefore(l, ins, k).prevTime, ins[k].now) != 0
  }

  /** The heave written by one iteration. */
  function Output(l: Loop, inp: DepthInput): Option<real>
    requires l.Valid() && (inp.mode == MODE_AUTON_DEPTH ==> TimeStep(l.prevTime, inp.now) != 0)
  {
    if inp.mode != MODE_AUTON_DEPTH then None else Some(Saturate(Pid(inp.gains, l, DepthTick(inp))))
  }

  /** What iteration k of a run writes. */
  function OutputAt(l: Loop, ins: seq<DepthInput>, k: nat): Option<real>
    requires l.Valid() && TimeMoves(l, ins) && k < |ins|
  {
    Output(StateBefore(l, ins, k), ins[k])
  }

  class AutonomousDepth {
    var i: nat
    const depthErrors: array<real>
    var depthPrevError: real
    var prevTime: TimeVal

    ghost predicate Valid()
      reads this, depthErrors
    {
      depthErrors.Length == NUM_ERRORS && i < NUM_ERRORS
    }

    ghost function State(): (l: Loop)
      requires Valid()
      reads this, depthErrors
      ensures l.Valid()
    {
      Loop(i, depthErrors[..], depthPrevError, prevTime)
    }

    /** The error buffer is not initialised; `garbage` is whatever it holds. */
    constructor (garbage: seq<real>, now: TimeVal)
      requires |garbage| == NUM_ERRORS
      ensures Valid() && fresh(depthErrors) && State() == Loop(0, garbage, 0.0, now)
    {
      i := 0;
      depthErrors := new real[NUM_ERRORS](k requires 0 <= k < NUM_ERRORS => garbage[k]);
      depthPrevError := 0.0;
      prevTime := now;
      new;
      assert depthErrors[..] == garbage;
    }

    /** One iteration of the loop. */
    method Iterate(inp: DepthInput) returns (heave: Option<real>)
      requires Valid()
      requires inp.mode == MODE_AUTON_DEPTH ==> TimeStep(prevTime, inp.now) != 0
      modifies this, depthErrors
      ensures Valid()
      ensures State() == if inp.mode == MODE_AUTON_DEPTH then Advance(old(State()), DepthTick(inp)) else old(State())
      ensures heave == Output(old(State()), inp)
    {
      hide TimeStep, Combine, Sum, Pid;
      if inp.mode != MODE_AUTON_DEPTH {
        return None;
      }
      i := (i + 1) % NUM_ERRORS;
      var dt := TimeStep(prevTime, inp.now);
      prevTime := inp.now;
      var error := inp.desired - inp.depth;
      depthErrors[i] := error;
      var sum := ArrSum(depthErrors, NUM_ERRORS);
      ghost var t := DepthTick(inp);
      assert depthErrors[..NUM_ERRORS] == depthErrors[..] == Advance(old(State()), t).errors;
      var depthPid := Combine(inp.gains, depthErrors[i], sum, (depthErrors[i] - depthPrevError) / dt as real);
      PidIs(inp.gains, old(State()), t, depthErrors[..]);
      assert depthPid == Pid(inp.gains, old(State()), t);
      if depthPid > 65.0 {
        depthPid := 65.0;
      }
      if depthPid < -65.0 {
        depthPid := -65.0;
      }
      heave := Some(depthPid);
      depthPrevError := depthErrors[i];
    }
  }

  /** The endless loop, over any number of iterations. */
  method InitAutonomousDepth(c: AutonomousDepth, ins: seq<DepthInput>) returns (outs: seq<Option<real>>)
    requires c.Valid() && TimeMoves(c.State(), ins)
    modifies c, c.depthErrors
    ensures c.Valid() && c.State() == Run(old(c.State()), ActiveTicks(ins))
    ensures |outs| == |ins|
    ensures forall k :: 0 <= k < |ins| ==> outs[k] == OutputAt(old(c.State()), ins, k)
  {
    hide Run, Pid, TimeStep, Advance, ActiveTicks, Output;
    outs := [];
    ghost var l := c.State();
    assert ins[..0] == [];
    NothingRun(l);
    for n := 0 to |ins|
      invariant c.Valid() && c.State() == StateBefore(l, ins, n)
      invariant |outs| == n
      invariant forall k :: 0 <= k < n ==> outs[k] == OutputAt(l, ins, k)
    {
      var heave := c.Iterate(ins[n]);
      outs := outs + [heave];
      ActiveTicksStep(ins, n);
      RunStep(l, ActiveTicks(ins[..n]), DepthTick(ins[n]));
    }
    assert ins[..|ins|] == ins;
  }

  lemma NothingRun(l: Loop)
    requires l.Valid()
    ensures Run(l, ActiveTicks([])) == l
  {
  }

  lemma ActiveTicksStep(ins: seq<DepthInput>, n: nat)
    requires n < |ins|
    ensures ActiveTicks(ins[..n + 1]) ==
            ActiveTicks(ins[..n]) + (if ins[n].mode == MODE_AUTON_DEPTH then [DepthTick(ins[n])] else [])
  {
    assert ins[..n + 1][..n] == ins[..n];
  }

  // ---------------------------------------------------------------------------------------------
  // What is written, spelled out
  // ---------------------------------------------------------------------------------------------

  /** The inputs of the iterations in mode 3. */
  function Active(ins: seq<DepthInput>): (a: seq<DepthInput>)
    ensures forall j :: 0 <= j < |a| ==> a[j].mode == 3
  {
    if ins == [] then []
    else Active(ins[..|ins| - 1]) + (if ins[|ins| - 1].mode == 3 then [ins[|ins| - 1]] else [])
  }

  /** How far below the measured depth the desired one is. */
  function Differences(a: seq<DepthInput>): (d: seq<real>)
    ensures |d| == |a|
  {
    seq(|a|, j requires 0 <= j < |a| => a[j].desired - a[j].depth)
  }

  lemma {:induction false} ActiveTicksAre(ins: seq<DepthInput>)
    ensures |ActiveTicks(ins)| == |Active(ins)| && Errors(ActiveTicks(ins)) == Differences(Active(ins))
    ensures forall j :: 0 <= j < |Active(ins)| ==> ActiveTicks(ins)[j].now == Active(ins)[j].now
  {
    if ins != [] {
      ActiveTicksAre(ins[..|ins| - 1]);
      var last, ts, a := ins[|ins| - 1], ActiveTicks(ins[..|ins| - 1]), Active(ins[..|ins| - 1]);
      assert ts + [] == ts && a + [] == a;
      assert Errors(ts + [DepthTick(last)]) == Errors(ts) + [last.desired - last.depth];
      assert Differences(a + [last]) == Differences(a) + [last.desired - last.depth];
    }
  }

  lemma ActiveUpTo(ins: seq<DepthInput>, k: nat)
    requires k < |ins| && ins[k].mode == 3
    ensures Active(ins[..k + 1]) == Active(ins[..k]) + [ins[k]]
  {
    assert ins[..k + 1][..k] == ins[..k];
  }

  lemma DifferencesStep(a: seq<DepthInput>, x: DepthInput)
    ensures Differences(a + [x]) == Differences(a) + [DepthTick(x).error] && DepthTick(x).now == x.now
  {
  }

  /** The value of active iteration k of a run: it is made of the difference of the desired and the measured
    * depth, of the sum of the last twenty differences (behind the initial contents of the buffer, if there
    * are fewer), and of the slope from the difference before.
    */
  lemma HeaveValueIs(l: Loop, ins: seq<DepthInput>, k: nat)
    requires l.Valid() && TimeMoves(l, ins) && k < |ins| && ins[k].mode == 3
    ensures var a := Active(ins[..k + 1]);
            var d, n := Differences(a), |a| - 1;
            && n >= 0 && a[n] == ins[k]
            && var before := if n == 0 then l.prevError else d[n - 1];
               var dt := TimeStep(if n == 0 then l.prevTime else a[n - 1].now, a[n].now);
               var history := Window(l) + d;
               && dt != 0
               && TimeStep(StateBefore(l, ins, k).prevTime, ins[k].now) == dt
               && Pid(ins[k].gains, StateBefore(l, ins, k), DepthTick(ins[k]))
                  == Combine(ins[k].gains, d[n], Sum(history[|history| - 20..]), Slope(d[n], before, dt))
  {
    hide TimeStep, Window, Sum, Run, Pid, Combine, Slope, Active, DepthTick, Differences;
    var ts, x := ActiveTicks(ins[..k]), ins[k];
    ActiveTicksAre(ins[..k]);
    ActiveUpTo(ins, k);
    assert x.mode == MODE_AUTON_DEPTH;
    RunRemembers(l, ts);
    var a := Active(ins[..k + 1]);
    var d, n := Differences(a), |a| - 1;
    DifferencesStep(Active(ins[..k]), x);
    var history := Window(l) + d;
    var before := if n == 0 then l.prevError else d[n - 1];
    var dt := TimeStep(if n == 0 then l.prevTime else a[n - 1].now, a[n].now);
    assert n > 0 ==> ErrorBefore(l, ts) == Errors(ts)[n - 1] == d[n - 1];
    assert Window(l) + d == Window(l) + d[..n] + [d[n]];
    assert History(l, ts, DepthTick(x)) == history;
    PidOf(x.gains, l, ts, DepthTick(x), Sum(history[|history| - 20..]), before, dt);
  }

  /** The output of every active iteration of every run is this value, kept within 65. */
  lemma HeaveIs(l: Loop, ins: seq<DepthInput>, k: nat)
    requires l.Valid() && TimeMoves(l, ins) && k < |ins| && ins[k].mode == 3
    ensures var a := Active(ins[..k + 1]);
            var d, n := Differences(a), |a| - 1;
            && n >= 0 && a[n] == ins[k]
            && (forall j :: 0 <= j <= n ==> d[j] == a[j].desired - a[j].depth)
            && var before := if n == 0 then l.prevError else d[n - 1];
               var dt := TimeStep(if n == 0 then l.prevTime else a[n - 1].now, a[n].now);
               var history, g := Window(l) + d, ins[k].gains;
               && dt != 0
               && var raw := Combine(g, d[n], Sum(history[|history| - 20..]), Slope(d[n], before, dt));
                  OutputAt(l, ins, k) == Some(if raw > 65.0 then 65.0 else if raw < -65.0 then -65.0 else raw)
  {
    hide TimeStep, Window, Sum, Run, Pid, Combine, Slope, Active;
    HeaveValueIs(l, ins, k);
    assert ins[k].mode == MODE_AUTON_DEPTH;
  }

  /** From the twentieth active iteration on the initial contents are gone. */
  lemma HeaveFromTwentieth(l: Loop, ins: seq<DepthInput>, k: nat)
    requires l.Valid() && TimeMoves(l, ins) && k < |ins| && ins[k].mode == 3 && |Active(ins[..k + 1])| >= 20
    ensures var a := Active(ins[..k + 1]);
            var d, n, g := Differences(a), |a| - 1, ins[k].gains;
            var dt := TimeStep(a[n - 1].now, a[n].now);
            && dt != 0
            && var raw := Combine(g, d[n], Sum(d[n - 19..]), Slope(d[n], d[n - 1], dt));
               OutputAt(l, ins, k) == Some(if raw > 65.0 then 65.0 else if raw < -65.0 then -65.0 else raw)
  {
    hide TimeStep, Window, Sum, Run, Pid, Output, TimeMoves, Active, Combine, Slope;
    HeaveIs(l, ins, k);
    var d := Differences(Active(ins[..k + 1]));
    var history := Window(l) + d;
    assert history[|history| - 20..] == d[|d| - 20..];
  }

  /** With kp alone the heave has the sign of the difference of the desired and the measured depth. */
  lemma HeaveHasTheSignOfTheDifference(l: Loop, ins: seq<DepthInput>, k: nat)
    requires l.Valid() && TimeMoves(l, ins) && k < |ins| && ins[k].mode == 3
    requires ins[k].gains.kp > 0.0 && ins[k].gains.ki == 0.0 == ins[k].gains.kd
    ensures OutputAt(l, ins, k).Some?
    ensures OutputAt(l, ins, k).value > 0.0 <==> ins[k].desired > ins[k].depth
    ensures OutputAt(l, ins, k).value < 0.0 <==> ins[k].desired < ins[k].depth
  {
    hide TimeStep, Window, Sum, Run, Pid, Output, TimeMoves, Active;
    HeaveIs(l, ins, k);
    var a := Active(ins[..k + 1]);
    CombineIs(ins[k].gains);
    SignOfProduct(ins[k].gains.kp, Differences(a)[|a| - 1]);
  }

  lemma SignOfProduct(a: real, x: real)
    requires a > 0.0
    ensures a * x > 0.0 <==> x > 0.0
    ensures a * x < 0.0 <==> x < 0.0
  {
    if x > 0.0 {
      assert a * x > 0.0;
    } else if x < 0.0 {
      assert a * -x > 0.0;
    }
  }

  // ---------------------------------------------------------------------------------------------
  // Saturation
  // ---------------------------------------------------------------------------------------------

  /** All depth errors of the active iterations are at most e in magnitude. */
  predicate ErrorsAtMost(ins: seq<DepthInput>, e: real) {
    forall k :: 0 <= k < |ins| && ins[k].mode == MODE_AUTON_DEPTH ==> -e <= ins[k].desired - ins[k].depth <= e
  }

  lemma {:induction false} ErrorsInRange(ins: seq<DepthInput>, e: real)
    requires ErrorsAtMost(ins, e)
    ensures forall j :: 0 <= j < |ActiveTicks(ins)| ==> -e <= ActiveTicks(ins)[j].error <= e
  {
    if ins != [] {
      ErrorsInRange(ins[..|ins| - 1], e);
    }
  }

  lemma SymmetricInterval(g: Gains, e: real, pid: real)
    requires g.kp * -e + g.ki * (20.0 * -e) - g.kd * (e - -e) <= pid
    requires pid <= g.kp * e + g.ki * (20.0 * e) + g.kd * (e - -e)
    ensures -((g.kp + 20.0 * g.ki + 2.0 * g.kd) * e) <= pid <= (g.kp + 20.0 * g.ki + 2.0 * g.kd) * e
  {
  }

  /** On every active tick of every run the PID value is at most (kp + 20 ki + 2 kd) e in magnitude, e
    * bounding the errors: from the first tick if it bounds the initial contents of the buffer as well,
    * and from the twentieth one whatever they are. The output is the PID value itself whenever that
    * bound does not exceed 65.
    */
  lemma DepthPidBounded(l: Loop, ins: seq<DepthInput>, k: nat, e: real)
    requires l.Valid() && TimeMoves(l, ins) && ErrorsAtMost(ins, e) && e >= 0.0
    requires k < |ins| && ins[k].mode == MODE_AUTON_DEPTH
    requires Within(l, -e, e) || |ActiveTicks(ins[..k + 1])| >= NUM_ERRORS
    requires ins[k].gains.Nonnegative() && TimeStep(StateBefore(l, ins, k).prevTime, ins[k].now) >= 1
    ensures var g, pid := ins[k].gains, Pid(ins[k].gains, StateBefore(l, ins, k), DepthTick(ins[k]));
            && -((g.kp + 20.0 * g.ki + 2.0 * g.kd) * e) <= pid <= (g.kp + 20.0 * g.ki + 2.0 * g.kd) * e
            && ((g.kp + 20.0 * g.ki + 2.0 * g.kd) * e <= 65.0 ==> OutputAt(l, ins, k) == Some(pid))
  {
    hide Pid, TimeStep, Run, Advance, Within;
    var before, t, g := ActiveTicks(ins[..k]), DepthTick(ins[k]), ins[k].gains;
    ErrorsInRange(ins[..k + 1], e);
    ActiveTicksStep(ins, k);
    RunStep(l, before, t);
    RunWithinEither(l, before, t, -e, e);
    PidBounds(g, StateBefore(l, ins, k), t, -e, e);
    SymmetricInterval(g, e, Pid(g, StateBefore(l, ins, k), t));
  }

  /** With the gains set at start-up and depth errors of at most 141 feet the saturation is the identity
    * on every tick of every run.
    */
  lemma DefaultGainsNeverSaturate(l: Loop, ins: seq<DepthInput>, k: nat)
    requires l.Valid() && TimeMoves(l, ins) && ErrorsAtMost(ins, 141.0)
    requires k < |ins| && ins[k].mode == MODE_AUTON_DEPTH && ins[k].gains == Gains(0.18, 0.01, 0.04)
    requires Within(l, -141.0, 141.0) || |ActiveTicks(ins[..k + 1])| >= NUM_ERRORS
    requires TimeStep(StateBefore(l, ins, k).prevTime, ins[k].now) >= 1
    ensures OutputAt(l, ins, k) == Some(Pid(ins[k].gains, StateBefore(l, ins, k), DepthTick(ins[k])))
  {
    DepthPidBounded(l, ins, k, 141.0);
  }

  // ---------------------------------------------------------------------------------------------
  // Mirror symmetry of whole runs
  // ---------------------------------------------------------------------------------------------

  function MirroredInput(inp: DepthInput): DepthInput {
    inp.(depth := -inp.depth, desired := -inp.desired)
  }

  function Mirrored(ins: seq<DepthInput>): (r: seq<DepthInput>)
    ensures |r| == |ins|
  {
    seq(|ins|, k requires 0 <= k < |ins| => MirroredInput(ins[k]))
  }

  function MirroredLoop(l: Loop): Loop {
    l.(errors := Negated(l.errors), prevError := -l.prevError)
  }

  lemma AdvanceMirrors(l: Loop, t: Tick)
    requires l.Valid()
    ensures Advance(MirroredLoop(l), t.(error := -t.error)) == MirroredLoop(Advance(l, t))
  {
  }

  lemma PidMirrors(g: Gains, l: Loop, t: Tick)
    requires l.Valid() && TimeStep(l.prevTime, t.now) != 0
    ensures Pid(g, MirroredLoop(l), t.(error := -t.error)) == -Pid(g, l, t)
  {
    hide TimeStep;
    var n := TimeStep(l.prevTime, t.now) as real;
    var s, d := Sum(Advance(l, t).errors), t.error - l.prevError;
    AdvanceMirrors(l, t);
    SumOfNegated(Advance(l, t).errors);
    assert -t.error - -l.prevError == -d;
    NegatedQuotient(d, n);
    CombineMirrors(g, t.error, s, d / n);
  }

  lemma NegatedQuotient(x: real, n: real)
    requires n != 0.0
    ensures -x / n == -(x / n)
  {
    var q := x / n;
    assert q * n == x;
    assert -q * n == -x;
    assert -x / n == -q * n / n;
  }

  lemma CombineMirrors(g: Gains, error: real, sum: real, slope: real)
    ensures Combine(g, -error, -sum, -slope) == -Combine(g, error, sum, slope)
  {
  }

  function MirroredTicks(ts: seq<Tick>): (r: seq<Tick>)
    ensures |r| == |ts|
  {
    seq(|ts|, k requires 0 <= k < |ts| => ts[k].(error := -ts[k].error))
  }

  lemma {:induction false} ActiveTicksMirror(ins: seq<DepthInput>)
    ensures ActiveTicks(Mirrored(ins)) == MirroredTicks(ActiveTicks(ins))
  {
    if ins != [] {
      var before := ins[..|ins| - 1];
      ActiveTicksMirror(before);
      assert Mirrored(ins)[..|ins| - 1] == Mirrored(before);
    }
  }

  lemma {:induction false} RunMirrors(l: Loop, ts: seq<Tick>)
    requires l.Valid()
    ensures Run(MirroredLoop(l), MirroredTicks(ts)) == MirroredLoop(Run(l, ts))
  {
    if ts != [] {
      hide Advance, MirroredLoop;
      var before := ts[..|ts| - 1];
      RunMirrors(l, before);
      assert MirroredTicks(ts)[..|ts| - 1] == MirroredTicks(before);
      AdvanceMirrors(Run(l, before), ts[|ts| - 1]);
    }
  }

  lemma StatesMirror(l: Loop, ins: seq<DepthInput>)
    requires l.Valid()
    ensures Run(MirroredLoop(l), ActiveTicks(Mirrored(ins))) == MirroredLoop(Run(l, ActiveTicks(ins)))
  {
    ActiveTicksMirror(ins);
    RunMirrors(l, ActiveTicks(ins));
  }

  /** Negating all depths and the initial buffer negates the heave of every tick. */
  lemma MirrorNegatesHeave(l: Loop, ins: seq<DepthInput>, k: nat)
    requires l.Valid() && TimeMoves(l, ins) && k < |ins|
    ensures TimeMoves(MirroredLoop(l), Mirrored(ins))
    ensures var o, m := OutputAt(l, ins, k), OutputAt(MirroredLoop(l), Mirrored(ins), k);
            m == if o.None? then None else Some(-o.value)
  {
    hide Pid;
    forall j | 0 <= j < |ins|
      ensures StateBefore(MirroredLoop(l), Mirrored(ins), j) == MirroredLoop(StateBefore(l, ins, j))
    {
      assert Mirrored(ins)[..j] == Mirrored(ins[..j]);
      StatesMirror(l, ins[..j]);
    }
    if ins[k].mode == MODE_AUTON_DEPTH {
      PidMirrors(ins[k].gains, StateBefore(l, ins, k), DepthTick(ins[k]));
      assert DepthTick(Mirrored(ins)[k]) == DepthTick(ins[k]).(error := -DepthTick(ins[k]).error);
    }
  }
}

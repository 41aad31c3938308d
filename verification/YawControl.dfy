/** The yaw controller (src/vehicle_control/vehicle_control.cpp). */
module YawControl {
  import opened Wrappers
  import opened PidLoop

  const MODE_AUTON := 2
  const PI := 3.14159265

  /** Everything one iteration reads: mode, gains, clock, measured and target yaw in degrees. */
  datatype YawInput = YawInput(mode: int, gains: Gains, now: TimeVal, yaw: real, target: real)

  /** The two surge thrusts written at the end of an iteration. */
  datatype Surge = Surge(port: real, starboard: real)

  function Abs(x: real): (a: real)
    ensures a >= 0.0 && (a == x || a == -x)
  {
    if x < 0.0 then -x else x
  }

  function YawError(inp: YawInput): real {
    Abs(Abs(inp.target) - Abs(inp.yaw))
  }

  function YawTick(inp: YawInput): Tick {
    Tick(inp.now, YawError(inp))
  }

  // ---------------------------------------------------------------------------------------------
  // Steering
  // ---------------------------------------------------------------------------------------------

  function Radians(degrees: real): real {
    degrees * PI / 180.0
  }

  function CosDifference(cos: real -> real, yaw: real, target: real): real {
    cos(Radians(target)) - cos(Radians(yaw))
  }

  predicate TurnsStarboard(cos: real -> real, yaw: real, target: real) {
    var d := CosDifference(cos, yaw, target);
    (yaw > 0.0 && d > 0.0) || (yaw < 0.0 && d < 0.0)
  }

  predicate TurnsPort(cos: real -> real, yaw: real, target: real) {
    var d := CosDifference(cos, yaw, target);
    (yaw < 0.0 && d > 0.0) || (yaw > 0.0 && d < 0.0)
  }

  function Cap(x: real): real {
    if x > 75.0 then 75.0 else x
  }

  function SurgeOf(cos: real -> real, yaw: real, target: real, pid: real): Surge {
    Surge(Cap((if TurnsPort(cos, yaw, target) then -pid else 0.0) + 30.0),
          Cap((if TurnsStarboard(cos, yaw, target) then -pid else 0.0) + 30.0))
  }

  // ---------------------------------------------------------------------------------------------
  // Whole runs
  // ---------------------------------------------------------------------------------------------

  /** The iterations in which the controller is active; in the others it changes nothing. */
  function ActiveTicks(ins: seq<YawInput>): (ts: seq<Tick>)
    ensures |ts| <= |ins|
  {
    if ins == [] then []
    else
      var last := ins[|ins| - 1];
      ActiveTicks(ins[..|ins| - 1]) + (if last.mode == MODE_AUTON then [YawTick(last)] else [])
  }

  /** The state before iteration k. */
  function StateBefore(l: Loop, ins: seq<YawInput>, k: nat): (r: Loop)
    requires l.Valid() && k <= |ins|
    ensures r.Valid()
  {
    Run(l, ActiveTicks(ins[..k]))
  }

  /** The controller divides by its time step in every active iteration. */
  predicate TimeMoves(l: Loop, ins: seq<YawInput>)
    requires l.Valid()
  {
    forall k :: 0 <= k < |ins| && ins[k].mode == MODE_AUTON ==>
                  TimeStep(StateBefore(l, ins, k).prevTime, ins[k].now) != 0
  }

  /** What one iteration writes. */
  function Output(cos: real -> real, l: Loop, inp: YawInput): Option<Surge>
    requires l.Valid() && (inp.mode == MODE_AUTON ==> TimeStep(l.prevTime, inp.now) != 0)
  {
    if inp.mode != MODE_AUTON then None
    else Some(SurgeOf(cos, inp.yaw, inp.target, Pid(inp.gains, l, YawTick(inp))))
  }

  /** What iteration k of a run writes. */
  function OutputAt(cos: real -> real, l: Loop, ins: seq<YawInput>, k: nat): Option<Surge>
    requires l.Valid() && TimeMoves(l, ins) && k < |ins|
  {
    Output(cos, StateBefore(l, ins, k), ins[k])
  }

  class VehicleControl {
    var i: nat
    const yawErrors: array<real>
    var yawPrevError: real
    var prevTime: TimeVal

    ghost predicate Valid()
      reads this, yawErrors
    {
      yawErrors.Length == NUM_ERRORS && i < NUM_ERRORS
    }

    ghost function State(): (l: Loop)
      requires Valid()
      reads this, yawErrors
      ensures l.Valid()
    {
      Loop(i, yawErrors[..], yawPrevError, prevTime)
    }

    /** The error buffer is not initialised; `garbage` is whatever it holds. */
    constructor (garbage: seq<real>, now: TimeVal)
      requires |garbage| == NUM_ERRORS
      ensures Valid() && fresh(yawErrors) && State() == Loop(0, garbage, 0.0, now)
    {
      i := 0;
      yawErrors := new real[NUM_ERRORS](k requires 0 <= k < NUM_ERRORS => garbage[k]);
      yawPrevError := 0.0;
      prevTime := now;
      new;
      assert yawErrors[..] == garbage;
    }

    /** One iteration of the loop. */
    method Iterate(cos: real -> real, inp: YawInput) returns (surge: Option<Surge>)
      requires Valid()
      requires inp.mode == MODE_AUTON ==> TimeStep(prevTime, inp.now) != 0
      modifies this, yawErrors
      ensures Valid()
      ensures State() == if inp.mode == MODE_AUTON then Advance(old(State()), YawTick(inp)) else old(State())
      ensures surge == Output(cos, old(State()), inp)
    {
      hide TimeStep, Combine, CosDifference, Sum, Pid;
      if inp.mode != MODE_AUTON {
        return None;
      }
      i := (i + 1) % NUM_ERRORS;
      var dt := TimeStep(prevTime, inp.now);
      prevTime := inp.now;
      var error := Abs(Abs(inp.target) - Abs(inp.yaw));
      yawErrors[i] := error;
      var sum := ArrSum(yawErrors, NUM_ERRORS);
      assert yawErrors[..NUM_ERRORS] == yawErrors[..] == Advance(old(State()), YawTick(inp)).errors;
      ghost var t := YawTick(inp);
      var yawPid := Combine(inp.gains, yawErrors[i], sum, (yawErrors[i] - yawPrevError) / dt as real);
      PidIs(inp.gains, old(State()), t, yawErrors[..]);
      assert yawPid == Pid(inp.gains, old(State()), t);
      var sspid, sppid := 0.0, 0.0;
      var d := CosDifference(cos, inp.yaw, inp.target);
      if (inp.yaw > 0.0 && d > 0.0) || (inp.yaw < 0.0 && d < 0.0) {
        sspid := -1.0 * yawPid;
      }
      if (inp.yaw < 0.0 && d > 0.0) || (inp.yaw > 0.0 && d < 0.0) {
        sppid := -1.0 * yawPid;
      }
      sspid := sspid + 30.0;
      sppid := sppid + 30.0;
      sspid := if sspid > 75.0 then 75.0 else sspid;
      sppid := if sppid > 75.0 then 75.0 else sppid;
      surge := Some(Surge(sppid, sspid));
      yawPrevError := yawErrors[i];
    }
  }

  /** The endless loop, over any number of iterations. */
  method InitVehicleControl(cos: real -> real, c: VehicleControl, ins: seq<YawInput>) returns (outs: seq<Option<Surge>>)
    requires c.Valid() && TimeMoves(c.State(), ins)
    modifies c, c.yawErrors
    ensures c.Valid() && c.State() == Run(old(c.State()), ActiveTicks(ins))
    ensures |outs| == |ins|
    ensures forall k :: 0 <= k < |ins| ==> outs[k] == OutputAt(cos, old(c.State()), ins, k)
  {
    hide Run, Pid, TimeStep, Advance, ActiveTicks, Output;
    outs := [];
    ghost var l := c.State();
    assert ins[..0] == [];
    NothingRun(l);
    for n := 0 to |ins|
      invariant c.Valid() && c.State() == StateBefore(l, ins, n)
      invariant |outs| == n
      invariant forall k :: 0 <= k < n ==> outs[k] == OutputAt(cos, l, ins, k)
    {
      var surge := c.Iterate(cos, ins[n]);
      outs := outs + [surge];
      ActiveTicksStep(ins, n);
      RunStep(l, ActiveTicks(ins[..n]), YawTick(ins[n]));
    }
    assert ins[..|ins|] == ins;
  }

  lemma NothingRun(l: Loop)
    requires l.Valid()
    ensures Run(l, ActiveTicks([])) == l
  {
  }

  lemma ActiveTicksStep(ins: seq<YawInput>, n: nat)
    requires n < |ins|
    ensures ActiveTicks(ins[..n + 1]) ==
            ActiveTicks(ins[..n]) + (if ins[n].mode == MODE_AUTON then [YawTick(ins[n])] else [])
  {
    assert ins[..n + 1][..n] == ins[..n];
  }

  // ---------------------------------------------------------------------------------------------
  // The steering decision refines plain comparison
  // ---------------------------------------------------------------------------------------------

  /** All that is used of the cosine: it is even and strictly decreasing from 0 to PI. */
  ghost predicate CosLike(cos: real -> real) {
    && (forall x :: cos(-x) == cos(x))
    && (forall x, y :: 0.0 <= x < y <= PI ==> cos(y) < cos(x))
  }

  lemma RadiansMonotone(a: real, b: real)
    requires 0.0 <= a < b <= 180.0
    ensures 0.0 <= Radians(a) < Radians(b) <= PI
  {
  }

  lemma CosOfAbs(cos: real -> real, a: real)
    requires CosLike(cos)
    ensures cos(Radians(a)) == cos(Radians(Abs(a)))
  {
    assert Radians(-a) == -Radians(a);
  }

  lemma CosDifferenceCompares(cos: real -> real, yaw: real, target: real)
    requires CosLike(cos) && -180.0 <= yaw <= 180.0 && -180.0 <= target <= 180.0
    ensures CosDifference(cos, yaw, target) > 0.0 <==> Abs(yaw) > Abs(target)
    ensures CosDifference(cos, yaw, target) < 0.0 <==> Abs(yaw) < Abs(target)
  {
    CosOfAbs(cos, yaw);
    CosOfAbs(cos, target);
    if Abs(yaw) > Abs(target) {
      RadiansMonotone(Abs(target), Abs(yaw));
    } else if Abs(yaw) < Abs(target) {
      RadiansMonotone(Abs(yaw), Abs(target));
    }
  }

  /** The comparison of cosines decides as a comparison of the angles' magnitudes would. */
  lemma SteeringIsComparison(cos: real -> real, yaw: real, target: real)
    requires CosLike(cos) && -180.0 <= yaw <= 180.0 && -180.0 <= target <= 180.0
    ensures TurnsStarboard(cos, yaw, target) <==>
            (yaw > 0.0 && Abs(yaw) > Abs(target)) || (yaw < 0.0 && Abs(yaw) < Abs(target))
    ensures TurnsPort(cos, yaw, target) <==>
            (yaw < 0.0 && Abs(yaw) > Abs(target)) || (yaw > 0.0 && Abs(yaw) < Abs(target))
  {
    CosDifferenceCompares(cos, yaw, target);
  }

  /** On every active tick of every run at least one side keeps its base thrust of 30, whatever the
    * accumulated integral; both do exactly when there is nothing to correct, when the magnitudes
    * agree, or when the vehicle points exactly at yaw 0, wherever its target is.
    */
  lemma OneSideNeutral(cos: real -> real, l: Loop, ins: seq<YawInput>, k: nat)
    requires l.Valid() && TimeMoves(l, ins) && k < |ins| && ins[k].mode == MODE_AUTON
    requires CosLike(cos) && -180.0 <= ins[k].yaw <= 180.0 && -180.0 <= ins[k].target <= 180.0
    ensures var s := OutputAt(cos, l, ins, k).value;
            && (s.port == 30.0 || s.starboard == 30.0)
            && (s.port == 30.0 == s.starboard <==>
                || Pid(ins[k].gains, StateBefore(l, ins, k), YawTick(ins[k])) == 0.0
                || Abs(ins[k].yaw) == Abs(ins[k].target)
                || ins[k].yaw == 0.0)
  {
    CosDifferenceCompares(cos, ins[k].yaw, ins[k].target);
  }

  /** Such as at yaw 0 with a target of 90 degrees: neither side is corrected, though the error is 90. */
  lemma YawZeroNeverSteers(cos: real -> real, inp: YawInput, pid: real)
    requires inp.yaw == 0.0 && inp.target == 90.0
    ensures YawError(inp) == 90.0 && SurgeOf(cos, inp.yaw, inp.target, pid) == Surge(30.0, 30.0)
  {
  }

  // ---------------------------------------------------------------------------------------------
  // What is written, spelled out
  // ---------------------------------------------------------------------------------------------

  /** The inputs of the iterations in mode 2. */
  function Active(ins: seq<YawInput>): (a: seq<YawInput>)
    ensures forall j :: 0 <= j < |a| ==> a[j].mode == 2
  {
    if ins == [] then []
    else Active(ins[..|ins| - 1]) + (if ins[|ins| - 1].mode == 2 then [ins[|ins| - 1]] else [])
  }

  function YawErrors(a: seq<YawInput>): (e: seq<real>)
    ensures |e| == |a|
  {
    seq(|a|, j requires 0 <= j < |a| => YawError(a[j]))
  }

  /** The error is the distance of the two magnitudes. */
  lemma YawErrorIs(inp: YawInput)
    ensures var target := if inp.target < 0.0 then -inp.target else inp.target;
            var m := target - (if inp.yaw < 0.0 then -inp.yaw else inp.yaw);
            YawError(inp) == if m < 0.0 then -m else m
  {
  }

  lemma {:induction false} ActiveTicksAre(ins: seq<YawInput>)
    ensures |ActiveTicks(ins)| == |Active(ins)| && Errors(ActiveTicks(ins)) == YawErrors(Active(ins))
    ensures forall j :: 0 <= j < |Active(ins)| ==> ActiveTicks(ins)[j].now == Active(ins)[j].now
  {
    hide YawError;
    if ins != [] {
      ActiveTicksAre(ins[..|ins| - 1]);
      var last, ts, a := ins[|ins| - 1], ActiveTicks(ins[..|ins| - 1]), Active(ins[..|ins| - 1]);
      assert ts + [] == ts && a + [] == a;
      assert Errors(ts + [YawTick(last)]) == Errors(ts) + [YawError(last)];
      assert YawErrors(a + [last]) == YawErrors(a) + [YawError(last)];
    }
  }

  lemma ActiveUpTo(ins: seq<YawInput>, k: nat)
    requires k < |ins| && ins[k].mode == 2
    ensures Active(ins[..k + 1]) == Active(ins[..k]) + [ins[k]]
  {
    assert ins[..k + 1][..k] == ins[..k];
  }

  /** The value that steers in active iteration k of a run: it is made of the error, of the sum of the last
    * twenty errors (behind the initial contents of the buffer, if there are fewer), and of the slope from
    * the error before.
    */
  lemma SteeringValueIs(l: Loop, ins: seq<YawInput>, k: nat)
    requires l.Valid() && TimeMoves(l, ins) && k < |ins| && ins[k].mode == 2
    ensures var a := Active(ins[..k + 1]);
            var e, n := YawErrors(a), |a| - 1;
            && n >= 0 && a[n] == ins[k] && e[n] == YawError(ins[k])
            && var before := if n == 0 then l.prevError else e[n - 1];
               var dt := TimeStep(if n == 0 then l.prevTime else a[n - 1].now, a[n].now);
               var history := Window(l) + e;
               && dt != 0
               && TimeStep(StateBefore(l, ins, k).prevTime, ins[k].now) == dt
               && Pid(ins[k].gains, StateBefore(l, ins, k), YawTick(ins[k]))
                  == Combine(ins[k].gains, e[n], Sum(history[|history| - 20..]), Slope(e[n], before, dt))
  {
    hide TimeStep, Window, Sum, Run, Pid, Combine, Slope, Active, YawError;
    var ts, x := ActiveTicks(ins[..k]), ins[k];
    ActiveTicksAre(ins[..k]);
    ActiveUpTo(ins, k);
    assert x.mode == MODE_AUTON;
    RunRemembers(l, ts);
    var a := Active(ins[..k + 1]);
    var e, n := YawErrors(a), |a| - 1;
    assert YawErrors(Active(ins[..k])) == e[..n] && e == e[..n] + [e[n]];
    var history := Window(l) + e;
    var before := if n == 0 then l.prevError else e[n - 1];
    var dt := TimeStep(if n == 0 then l.prevTime else a[n - 1].now, a[n].now);
    assert n > 0 ==> ErrorBefore(l, ts) == Errors(ts)[n - 1] == e[n - 1];
    assert History(l, ts, YawTick(x)) == history;
    PidOf(x.gains, l, ts, YawTick(x), Sum(history[|history| - 20..]), before, dt);
  }

  /** Which side steers, on every active tick of every run: the starboard side is slowed down by the
    * steering value when the target lies closer to straight ahead than a positive yaw, or further from it
    * than a negative one; the port side in the mirrored cases; the other side runs at 30, and so do both
    * when the magnitudes agree or the yaw is 0. Neither exceeds 75.
    */
  lemma SideThatSteers(cos: real -> real, l: Loop, ins: seq<YawInput>, k: nat)
    requires l.Valid() && TimeMoves(l, ins) && k < |ins| && ins[k].mode == 2 && CosLike(cos)
    requires -180.0 <= ins[k].yaw <= 180.0 && -180.0 <= ins[k].target <= 180.0
    ensures TimeStep(StateBefore(l, ins, k).prevTime, ins[k].now) != 0
    ensures var yaw, target := ins[k].yaw, ins[k].target;
            var value := 30.0 - Pid(ins[k].gains, StateBefore(l, ins, k), YawTick(ins[k]));
            var steered := if value > 75.0 then 75.0 else value;
            OutputAt(cos, l, ins, k)
              == Some(if (yaw > 0.0 && -yaw < target < yaw) || (yaw < 0.0 && (target < yaw || target > -yaw)) then
                        Surge(port := 30.0, starboard := steered)
                      else if (yaw < 0.0 && yaw < target < -yaw) || (yaw > 0.0 && (target < -yaw || target > yaw)) then
                        Surge(port := steered, starboard := 30.0)
                      else Surge(port := 30.0, starboard := 30.0))
  {
    hide Pid, Run, TimeStep, CosDifference;
    assert ins[k].mode == MODE_AUTON;
    CosDifferenceCompares(cos, ins[k].yaw, ins[k].target);
  }

  // ---------------------------------------------------------------------------------------------
  // Whole-run bounds
  // ---------------------------------------------------------------------------------------------

  /** All yaws of the active iterations are angles. */
  predicate YawsInRange(ins: seq<YawInput>) {
    forall k :: 0 <= k < |ins| && ins[k].mode == MODE_AUTON ==>
                  -180.0 <= ins[k].yaw <= 180.0 && -180.0 <= ins[k].target <= 180.0
  }

  lemma {:induction false} ErrorsInRange(ins: seq<YawInput>)
    requires YawsInRange(ins)
    ensures forall j :: 0 <= j < |ActiveTicks(ins)| ==> 0.0 <= ActiveTicks(ins)[j].error <= 180.0
  {
    if ins != [] {
      ErrorsInRange(ins[..|ins| - 1]);
    }
  }

  /** The interval in which both outputs stay, for the gains in force. */
  predicate Bounded(s: Surge, g: Gains) {
    var lo, hi := 30.0 - 180.0 * (g.kp + 20.0 * g.ki + g.kd), 30.0 + 180.0 * g.kd;
    lo <= s.port <= hi && lo <= s.starboard <= hi && s.port <= 75.0 && s.starboard <= 75.0
  }

  lemma SurgeBounds(cos: real -> real, yaw: real, target: real, pid: real, g: Gains)
    requires g.Nonnegative() && -180.0 * g.kd <= pid <= 180.0 * (g.kp + 20.0 * g.ki + g.kd)
    ensures Bounded(SurgeOf(cos, yaw, target, pid), g)
  {
    hide TurnsPort, TurnsStarboard;
  }

  lemma OutputBounds(cos: real -> real, l: Loop, inp: YawInput)
    requires l.Valid() && Within(Advance(l, YawTick(inp)), 0.0, 180.0) && 0.0 <= l.prevError <= 180.0
    requires inp.mode == MODE_AUTON && inp.gains.Nonnegative() && TimeStep(l.prevTime, inp.now) >= 1
    ensures Bounded(Output(cos, l, inp).value, inp.gains)
  {
    hide Pid, SurgeOf, Bounded;
    PidBounds(inp.gains, l, YawTick(inp), 0.0, 180.0);
    SurgeBounds(cos, inp.yaw, inp.target, Pid(inp.gains, l, YawTick(inp)), inp.gains);
  }

  /** Both thrusts stay bounded on every active tick of every run: from the first one if the buffer
    * starts with errors between 0 and 180, and from the twentieth one whatever it starts with.
    */
  lemma YawThrustBounded(cos: real -> real, l: Loop, ins: seq<YawInput>, k: nat)
    requires l.Valid() && TimeMoves(l, ins) && YawsInRange(ins) && k < |ins| && ins[k].mode == MODE_AUTON
    requires Within(l, 0.0, 180.0) || |ActiveTicks(ins[..k + 1])| >= NUM_ERRORS
    requires ins[k].gains.Nonnegative() && TimeStep(StateBefore(l, ins, k).prevTime, ins[k].now) >= 1
    ensures Bounded(OutputAt(cos, l, ins, k).value, ins[k].gains)
  {
    var before, t := ActiveTicks(ins[..k]), YawTick(ins[k]);
    ErrorsInRange(ins[..k + 1]);
    ActiveTicksStep(ins, k);
    RunStep(l, before, t);
    RunWithinEither(l, before, t, 0.0, 180.0);
    OutputBounds(cos, StateBefore(l, ins, k), ins[k]);
  }

  /** With the gains set at start-up both outputs of every active tick of every run stay between -45.6
    * and 37.2, so the cap at 75 never takes effect.
    */
  lemma DefaultGainsNeverCap(cos: real -> real, l: Loop, ins: seq<YawInput>, k: nat)
    requires l.Valid() && TimeMoves(l, ins) && YawsInRange(ins) && k < |ins| && ins[k].mode == MODE_AUTON
    requires Within(l, 0.0, 180.0) || |ActiveTicks(ins[..k + 1])| >= NUM_ERRORS
    requires ins[k].gains == Gains(0.18, 0.01, 0.04)
    requires TimeStep(StateBefore(l, ins, k).prevTime, ins[k].now) >= 1
    ensures var s := OutputAt(cos, l, ins, k).value;
            -45.6 <= s.port <= 37.2 && -45.6 <= s.starboard <= 37.2
  {
    YawThrustBounded(cos, l, ins, k);
  }

  // ---------------------------------------------------------------------------------------------
  // Mirror symmetry of whole runs
  // ---------------------------------------------------------------------------------------------

  function Mirrored(ins: seq<YawInput>): (r: seq<YawInput>)
    ensures |r| == |ins|
  {
    seq(|ins|, k requires 0 <= k < |ins| => ins[k].(yaw := -ins[k].yaw))
  }

  function Swapped(o: Option<Surge>): Option<Surge> {
    match o
    case None => None
    case Some(s) => Some(Surge(s.starboard, s.port))
  }

  /** The same inputs up to the signs of the target yaws. */
  predicate SameUpToTargetSign(a: seq<YawInput>, b: seq<YawInput>) {
    && |a| == |b|
    && forall k :: 0 <= k < |a| ==> b[k] == a[k] || b[k] == a[k].(target := -a[k].target)
  }

  /** The same inputs up to the signs of all yaws. */
  predicate SameUpToSigns(a: seq<YawInput>, b: seq<YawInput>) {
    && |a| == |b|
    && forall k :: 0 <= k < |a| ==>
                     && b[k].(yaw := 0.0, target := 0.0) == a[k].(yaw := 0.0, target := 0.0)
                     && Abs(b[k].yaw) == Abs(a[k].yaw) && Abs(b[k].target) == Abs(a[k].target)
  }

  lemma {:induction false} TicksIgnoreSigns(a: seq<YawInput>, b: seq<YawInput>)
    requires SameUpToSigns(a, b)
    ensures ActiveTicks(a) == ActiveTicks(b)
  {
    if a != [] {
      TicksIgnoreSigns(a[..|a| - 1], b[..|b| - 1]);
      var x, y := a[|a| - 1], b[|b| - 1];
      assert x.(yaw := 0.0, target := 0.0) == y.(yaw := 0.0, target := 0.0);
      assert x.mode == x.(yaw := 0.0, target := 0.0).mode && x.now == x.(yaw := 0.0, target := 0.0).now;
      assert y.mode == y.(yaw := 0.0, target := 0.0).mode && y.now == y.(yaw := 0.0, target := 0.0).now;
    }
  }

  lemma StatesIgnoreSigns(l: Loop, a: seq<YawInput>, b: seq<YawInput>, k: nat)
    requires l.Valid() && SameUpToSigns(a, b) && k <= |a|
    ensures StateBefore(l, a, k) == StateBefore(l, b, k)
  {
    TicksIgnoreSigns(a[..k], b[..k]);
  }

  /** Negating every measured yaw leaves the history alone and swaps the two outputs at every tick. */
  lemma MirrorSwapsSides(cos: real -> real, l: Loop, ins: seq<YawInput>, k: nat)
    requires l.Valid() && TimeMoves(l, ins) && CosLike(cos) && k < |ins|
    ensures TimeMoves(l, Mirrored(ins))
    ensures StateBefore(l, Mirrored(ins), k) == StateBefore(l, ins, k)
    ensures OutputAt(cos, l, Mirrored(ins), k) == Swapped(OutputAt(cos, l, ins, k))
  {
    var m := Mirrored(ins);
    forall j | 0 <= j < |ins|
      ensures StateBefore(l, m, j) == StateBefore(l, ins, j)
    {
      StatesIgnoreSigns(l, ins, m, j);
    }
    CosOfAbs(cos, ins[k].yaw);
    CosOfAbs(cos, m[k].yaw);
  }

  /** The sign of a target yaw never matters. */
  lemma TargetSignIrrelevant(cos: real -> real, l: Loop, a: seq<YawInput>, b: seq<YawInput>, k: nat)
    requires l.Valid() && TimeMoves(l, a) && CosLike(cos) && SameUpToTargetSign(a, b) && k < |a|
    ensures TimeMoves(l, b)
    ensures OutputAt(cos, l, b, k) == OutputAt(cos, l, a, k)
  {
    forall j | 0 <= j < |a|
      ensures StateBefore(l, b, j) == StateBefore(l, a, j)
    {
      StatesIgnoreSigns(l, a, b, j);
    }
    CosOfAbs(cos, a[k].target);
    CosOfAbs(cos, b[k].target);
  }
}

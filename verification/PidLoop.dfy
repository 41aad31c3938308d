/** What the yaw loop and the depth loop have in common: the millisecond clock, the cyclic buffer of
  * the last twenty errors, its sum, and the PID formula. Floats are modelled as reals.
  */
module PidLoop {

  const NUM_ERRORS := 20

  // ---------------------------------------------------------------------------------------------
  // Time
  // ---------------------------------------------------------------------------------------------

  /** A clock reading, as gettimeofday gives it. */
  datatype TimeVal = TimeVal(sec: int, usec: int) {

    predicate Valid() {
      0 <= usec < 1_000_000
    }

    function Micros(): int {
      1_000_000 * sec + usec
    }
  }

  /** Conversion of a floating-point number to an integer. */
  function Truncate(x: real): int {
    if x >= 0.0 then x.Floor else -(-x).Floor
  }

  /** The time step in milliseconds. */
  function TimeStep(prev: TimeVal, cur: TimeVal): int {
    var seconds, useconds := cur.sec - prev.sec, cur.usec - prev.usec;
    Truncate((seconds * 1000) as real + useconds as real / 1000.0 + 0.5)
  }

  lemma FloorOfQuotient(n: int, d: int)
    requires d > 0
    ensures (n as real / d as real).Floor == n / d
  {
    var q, r := n / d, n % d;
    assert n as real / d as real == q as real + r as real / d as real;
    assert 0.0 <= r as real / d as real < 1.0;
  }

  /** The time step is the elapsed time rounded to the nearest millisecond, whatever the sign of the
    * microsecond difference; a clock that runs backwards is rounded towards zero after the half
    * millisecond has been added.
    */
  lemma TimeStepRounds(prev: TimeVal, cur: TimeVal)
    ensures var d := cur.Micros() - prev.Micros();
            TimeStep(prev, cur) == if d >= -500 then (d + 500) / 1000 else -((-d - 500) / 1000)
  {
    var d := cur.Micros() - prev.Micros();
    var seconds, useconds := cur.sec - prev.sec, cur.usec - prev.usec;
    var x := (seconds * 1000) as real + useconds as real / 1000.0 + 0.5;
    assert d == 1_000_000 * seconds + useconds;
    assert x == (d + 500) as real / 1000.0;
    if d >= -500 {
      FloorOfQuotient(d + 500, 1000);
    } else {
      FloorOfQuotient(-d - 500, 1000);
      assert -x == (-d - 500) as real / 1000.0;
    }
  }

  /** One step is off by at most half a millisecond exactly when the clock has not run backwards by
    * more than that, save for the steps that happen to fall on a half.
    */
  lemma TimeStepErrorExactlyWhen(prev: TimeVal, cur: TimeVal)
    ensures var d := cur.Micros() - prev.Micros();
            -500 <= 1000 * TimeStep(prev, cur) - d <= 500 <==> d >= -500 || (d + 500) % 1000 == 0
  {
    TimeStepRounds(prev, cur);
  }

  /** Such as a clock set back by 600 microseconds: the step is 0. */
  lemma BackwardClockIsOff()
    ensures TimeStep(TimeVal(1, 600), TimeVal(1, 0)) == 0
  {
    TimeStepRounds(TimeVal(1, 600), TimeVal(1, 0));
  }

  // ---------------------------------------------------------------------------------------------
  // Sums
  // ---------------------------------------------------------------------------------------------

  function Sum(s: seq<real>): real {
    if s == [] then 0.0 else Sum(s[..|s| - 1]) + s[|s| - 1]
  }

  /** arr_sum of src/helpers.cpp, with the sum started at 0. */
  method ArrSum(arr: array<real>, len: nat) returns (sum: real)
    requires len <= arr.Length
    ensures sum == Sum(arr[..len])
  {
    sum := 0.0;
    for i := 0 to len
      invariant sum == Sum(arr[..i])
    {
      sum := sum + arr[i];
      assert arr[..i + 1][..i] == arr[..i];
    }
  }

  lemma {:induction false} SumOfConcat(a: seq<real>, b: seq<real>)
    ensures Sum(a + b) == Sum(a) + Sum(b)
    decreases |b|
  {
    if b == [] {
      assert a + b == a;
    } else {
      assert (a + b)[..|a + b| - 1] == a + b[..|b| - 1];
      SumOfConcat(a, b[..|b| - 1]);
    }
  }

  /** Elements between lo and hi sum to between |s| lo and |s| hi. */
  lemma {:induction false} SumBounds(s: seq<real>, lo: real, hi: real)
    requires forall k :: 0 <= k < |s| ==> lo <= s[k] <= hi
    ensures |s| as real * lo <= Sum(s) <= |s| as real * hi
  {
    if s != [] {
      SumBounds(s[..|s| - 1], lo, hi);
    }
  }

  function Negated(s: seq<real>): (n: seq<real>)
    ensures |n| == |s|
  {
    seq(|s|, k requires 0 <= k < |s| => -s[k])
  }

  lemma {:induction false} SumOfNegated(s: seq<real>)
    ensures Sum(Negated(s)) == -Sum(s)
  {
    if s != [] {
      assert Negated(s)[..|s| - 1] == Negated(s[..|s| - 1]);
      SumOfNegated(s[..|s| - 1]);
    }
  }

  // ---------------------------------------------------------------------------------------------
  // The loop
  // ---------------------------------------------------------------------------------------------

  /** What a controller keeps from one iteration to the next. */
  datatype Loop = Loop(i: nat, errors: seq<real>, prevError: real, prevTime: TimeVal) {

    predicate Valid() {
      i < NUM_ERRORS && |errors| == NUM_ERRORS
    }
  }

  datatype Gains = Gains(kp: real, ki: real, kd: real) {

    predicate Nonnegative() {
      kp >= 0.0 && ki >= 0.0 && kd >= 0.0
    }
  }

  /** One active iteration: when it ran and the error it measured. */
  datatype Tick = Tick(now: TimeVal, error: real)

  function Advance(l: Loop, t: Tick): (r: Loop)
    requires l.Valid()
    ensures r.Valid()
  {
    var i := (l.i + 1) % NUM_ERRORS;
    Loop(i, l.errors[i := t.error], t.error, t.now)
  }

  function Combine(g: Gains, error: real, sum: real, slope: real): real {
    g.kp * error + g.ki * sum + g.kd * slope
  }

  function Slope(error: real, before: real, dt: int): real
    requires dt != 0
  {
    (error - before) / dt as real
  }

  /** The PID value computed in the iteration that takes l to Advance(l, t). */
  function Pid(g: Gains, l: Loop, t: Tick): real
    requires l.Valid() && TimeStep(l.prevTime, t.now) != 0
  {
    Combine(g, t.error, Sum(Advance(l, t).errors), Slope(t.error, l.prevError, TimeStep(l.prevTime, t.now)))
  }

  lemma PidIs(g: Gains, l: Loop, t: Tick, errors: seq<real>)
    requires l.Valid() && TimeStep(l.prevTime, t.now) != 0 && errors == Advance(l, t).errors
    ensures Pid(g, l, t)
         == Combine(g, t.error, Sum(errors), (t.error - l.prevError) / TimeStep(l.prevTime, t.now) as real)
  {
    hide Combine, Sum, TimeStep;
  }

  function Run(l: Loop, ts: seq<Tick>): (r: Loop)
    requires l.Valid()
    ensures r.Valid()
  {
    if ts == [] then l else Advance(Run(l, ts[..|ts| - 1]), ts[|ts| - 1])
  }

  lemma RunStep(l: Loop, ts: seq<Tick>, t: Tick)
    requires l.Valid()
    ensures Run(l, ts + [t]) == Advance(Run(l, ts), t)
    ensures Run(l, ts + []) == Run(l, ts)
  {
    assert (ts + [t])[..|ts|] == ts && ts + [] == ts;
  }

  // ---------------------------------------------------------------------------------------------
  // The cyclic buffer is a sliding window
  // ---------------------------------------------------------------------------------------------

  /** The buffer read in time order: the slot about to be overwritten comes first. */
  function Window(l: Loop): (w: seq<real>)
    requires l.Valid()
    ensures |w| == NUM_ERRORS
  {
    l.errors[l.i + 1..] + l.errors[..l.i + 1]
  }

  lemma WindowAdvances(l: Loop, t: Tick)
    requires l.Valid()
    ensures Window(Advance(l, t)) == Window(l)[1..] + [t.error]
  {
    var a := Advance(l, t);
    if a.i == 0 {
      assert l.i + 1 == NUM_ERRORS && Window(l) == l.errors;
      assert a.errors[1..] == l.errors[1..] && a.errors[..1] == [t.error];
    } else {
      assert a.i == l.i + 1;
      assert a.errors[a.i + 1..] == l.errors[l.i + 1..][1..];
      assert a.errors[..a.i + 1] == l.errors[..l.i + 1] + [t.error];
    }
  }

  lemma SumOfWindow(l: Loop)
    requires l.Valid()
    ensures Sum(l.errors) == Sum(Window(l))
  {
    assert l.errors == l.errors[..l.i + 1] + l.errors[l.i + 1..];
    SumOfConcat(l.errors[..l.i + 1], l.errors[l.i + 1..]);
    SumOfConcat(l.errors[l.i + 1..], l.errors[..l.i + 1]);
  }

  function Errors(ts: seq<Tick>): (e: seq<real>)
    ensures |e| == |ts|
  {
    seq(|ts|, k requires 0 <= k < |ts| => ts[k].error)
  }

  function LastTwenty(s: seq<real>): (r: seq<real>)
    requires |s| >= NUM_ERRORS
    ensures |r| == NUM_ERRORS
  {
    s[|s| - NUM_ERRORS..]
  }

  /** After any run the buffer holds, in time order, the last twenty of the initial contents followed
    * by all measured errors.
    */
  lemma {:induction false} WindowSlides(l: Loop, ts: seq<Tick>)
    requires l.Valid()
    ensures Window(Run(l, ts)) == LastTwenty(Window(l) + Errors(ts))
  {
    if ts == [] {
      assert Window(l) + Errors(ts) == Window(l);
    } else {
      var before, last := ts[..|ts| - 1], ts[|ts| - 1];
      WindowSlides(l, before);
      WindowAdvances(Run(l, before), last);
      assert Errors(ts) == Errors(before) + [last.error];
      assert Window(l) + Errors(ts) == Window(l) + Errors(before) + [last.error];
    }
  }

  /** From the twentieth active tick on the sum is that of the last twenty errors, whatever the buffer
    * held at first.
    */
  lemma SumIsSlidingWindow(l: Loop, ts: seq<Tick>)
    requires l.Valid() && |ts| >= NUM_ERRORS
    ensures Window(Run(l, ts)) == LastTwenty(Errors(ts))
    ensures Sum(Run(l, ts).errors) == Sum(LastTwenty(Errors(ts)))
  {
    WindowSlides(l, ts);
    SumOfWindow(Run(l, ts));
    assert LastTwenty(Window(l) + Errors(ts)) == LastTwenty(Errors(ts));
  }

  lemma SumOfShiftedWindow(w: seq<real>, e: real)
    requires w != []
    ensures Sum(w[1..] + [e]) == Sum(w) + e - w[0]
  {
    SumOfConcat([w[0]], w[1..]);
    assert [w[0]] + w[1..] == w;
    SumOfConcat(w[1..], [e]);
    assert [w[0]][..0] == [] && [e][..0] == [];
  }

  /** Each tick adds the newest error to the sum and drops the one twenty ticks older. */
  lemma SumSlides(l: Loop, ts: seq<Tick>, t: Tick)
    requires l.Valid() && |ts| >= NUM_ERRORS
    ensures Sum(Advance(Run(l, ts), t).errors) == Sum(Run(l, ts).errors) + t.error - ts[|ts| - NUM_ERRORS].error
  {
    hide Window, Sum, Run, Advance;
    var r := Run(l, ts);
    SumIsSlidingWindow(l, ts);
    assert Window(r)[0] == ts[|ts| - NUM_ERRORS].error;
    SumOfWindow(r);
    SumOfWindow(Advance(r, t));
    WindowAdvances(r, t);
    SumOfShiftedWindow(Window(r), t.error);
  }

  /** At the head of the loop the stored previous error is the current slot, once there was a tick. */
  lemma PreviousErrorIsCurrentSlot(l: Loop, ts: seq<Tick>)
    requires l.Valid() && ts != []
    ensures Run(l, ts).prevError == Run(l, ts).errors[Run(l, ts).i] == ts[|ts| - 1].error
  {
  }

  // ---------------------------------------------------------------------------------------------
  // What the controllers compute, spelled out
  // ---------------------------------------------------------------------------------------------

  /** The error of the tick before. */
  function ErrorBefore(l: Loop, ts: seq<Tick>): real {
    if ts == [] then l.prevError else ts[|ts| - 1].error
  }

  lemma RunRemembers(l: Loop, ts: seq<Tick>)
    requires l.Valid()
    ensures Run(l, ts).prevTime == ReadingBefore(l, ts, |ts|) && Run(l, ts).prevError == ErrorBefore(l, ts)
  {
  }

  /** All errors up to tick t, in time order, after the initial contents. */
  function History(l: Loop, ts: seq<Tick>, t: Tick): (h: seq<real>)
    requires l.Valid()
    ensures |h| == 20 + |ts| + 1
  {
    Window(l) + Errors(ts) + [t.error]
  }

  lemma SumOfHistory(l: Loop, ts: seq<Tick>, t: Tick)
    requires l.Valid()
    ensures Sum(Advance(Run(l, ts), t).errors) == Sum(History(l, ts, t)[|ts| + 1..])
  {
    hide Sum, Window, Run, Advance;
    WindowSlides(l, ts + [t]);
    RunStep(l, ts, t);
    SumOfWindow(Advance(Run(l, ts), t));
    assert Errors(ts + [t]) == Errors(ts) + [t.error];
    assert Window(l) + Errors(ts + [t]) == History(l, ts, t);
  }

  lemma PidOf(g: Gains, l: Loop, ts: seq<Tick>, t: Tick, sum: real, before: real, dt: int)
    requires l.Valid() && dt != 0 && dt == TimeStep(ReadingBefore(l, ts, |ts|), t.now)
    requires sum == Sum(History(l, ts, t)[|ts| + 1..]) && before == ErrorBefore(l, ts)
    ensures TimeStep(Run(l, ts).prevTime, t.now) == dt
    ensures Pid(g, Run(l, ts), t) == Combine(g, t.error, sum, Slope(t.error, before, dt))
  {
    hide TimeStep, Window, Sum, Run, Advance, History, Errors, Combine, Slope;
    RunRemembers(l, ts);
    SumOfHistory(l, ts, t);
  }

  /** The formula. */
  lemma CombineIs(g: Gains)
    ensures forall error, sum, slope :: Combine(g, error, sum, slope) == g.kp * error + g.ki * sum + g.kd * slope
  {
  }

  /** The value of any tick of any run: proportional to its error, to the sum of the last twenty errors,
    * this one included (and the initial contents, in time order, before there are twenty), and to the
    * slope from the error of the tick before.
    */
  lemma PidIsExplicit(g: Gains, l: Loop, ts: seq<Tick>, t: Tick)
    requires l.Valid() && TimeStep(ReadingBefore(l, ts, |ts|), t.now) != 0
    ensures Run(l, ts).prevTime == ReadingBefore(l, ts, |ts|)
    ensures var history, dt := History(l, ts, t), TimeStep(ReadingBefore(l, ts, |ts|), t.now);
            Pid(g, Run(l, ts), t)
              == g.kp * t.error + g.ki * Sum(history[|history| - 20..]) + g.kd * Slope(t.error, ErrorBefore(l, ts), dt)
  {
    hide TimeStep, Window, Sum, Run, Pid, History, Errors, Combine, Slope;
    var history, dt := History(l, ts, t), TimeStep(ReadingBefore(l, ts, |ts|), t.now);
    RunRemembers(l, ts);
    PidOf(g, l, ts, t, Sum(history[|history| - 20..]), ErrorBefore(l, ts), dt);
    CombineIs(g);
  }

  lemma LastTwentyErrors(l: Loop, ts: seq<Tick>, t: Tick)
    requires l.Valid() && |ts| >= 19
    ensures History(l, ts, t)[|ts| + 1..] == Errors(ts[|ts| - 19..]) + [t.error]
  {
  }

  lemma Distributes(a: real, c: real, x: real)
    ensures (a + c) * x == a * x + c * x
  {
  }

  /** Raising a gain adds its multiple of what it acts on. */
  lemma CombineRaised(g: Gains, c: real)
    ensures forall e, s, d :: Combine(g.(kp := g.kp + c), e, s, d) == Combine(g, e, s, d) + c * e
    ensures forall e, s, d :: Combine(g.(ki := g.ki + c), e, s, d) == Combine(g, e, s, d) + c * s
    ensures forall e, s, d :: Combine(g.(kd := g.kd + c), e, s, d) == Combine(g, e, s, d) + c * d
  {
    forall e, s, d
      ensures Combine(g.(kp := g.kp + c), e, s, d) == Combine(g, e, s, d) + c * e
      ensures Combine(g.(ki := g.ki + c), e, s, d) == Combine(g, e, s, d) + c * s
      ensures Combine(g.(kd := g.kd + c), e, s, d) == Combine(g, e, s, d) + c * d
    {
      Distributes(g.kp, c, e);
      Distributes(g.ki, c, s);
      Distributes(g.kd, c, d);
    }
  }

  lemma SlopeIs(error: real, before: real, dt: int)
    requires dt != 0
    ensures Slope(error, before, dt) == (error - before) / dt as real
    ensures Slope(error, before, dt) * dt as real == error - before
  {
  }

  // What each gain does, on every tick of every run: kp acts on the error, ki on the sum of the last twenty
  // errors, kd on the slope from the error before; nothing else acts.

  lemma KpActs(g: Gains, l: Loop, ts: seq<Tick>, t: Tick, c: real)
    requires l.Valid() && TimeStep(Run(l, ts).prevTime, t.now) >= 1
    ensures Pid(g.(kp := g.kp + c), Run(l, ts), t) == Pid(g, Run(l, ts), t) + c * t.error
  {
    hide TimeStep, Window, Sum, Run, Advance, Errors, Combine, Slope;
    var r := Run(l, ts);
    var dt := TimeStep(r.prevTime, t.now);
    CombineRaised(g, c);
  }

  lemma KiActs(g: Gains, l: Loop, ts: seq<Tick>, t: Tick, c: real)
    requires l.Valid() && |ts| >= 19 && TimeStep(Run(l, ts).prevTime, t.now) >= 1
    ensures Pid(g.(ki := g.ki + c), Run(l, ts), t)
         == Pid(g, Run(l, ts), t) + c * Sum(Errors(ts[|ts| - 19..]) + [t.error])
  {
    hide TimeStep, Window, Sum, Run, Advance, History, Errors, Combine, Slope;
    LastTwentyErrors(l, ts, t);
    SumOfHistory(l, ts, t);
    CombineRaised(g, c);
  }

  lemma KdActs(g: Gains, l: Loop, ts: seq<Tick>, t: Tick, c: real)
    requires l.Valid() && ts != [] && TimeStep(ts[|ts| - 1].now, t.now) >= 1
    ensures Run(l, ts).prevTime == ts[|ts| - 1].now
    ensures Pid(g.(kd := g.kd + c), Run(l, ts), t)
         == Pid(g, Run(l, ts), t) + c * Slope(t.error, ts[|ts| - 1].error, TimeStep(ts[|ts| - 1].now, t.now))
  {
    hide TimeStep, Window, Sum, Run, Pid, History, Errors, Combine, Slope;
    var before, dt := ts[|ts| - 1].error, TimeStep(ts[|ts| - 1].now, t.now);
    RunRemembers(l, ts);
    PidOf(g, l, ts, t, Sum(History(l, ts, t)[|ts| + 1..]), before, dt);
    PidOf(g.(kd := g.kd + c), l, ts, t, Sum(History(l, ts, t)[|ts| + 1..]), before, dt);
    CombineRaised(g, c);
  }

  lemma NoGainsNoAction(l: Loop, ts: seq<Tick>, t: Tick)
    requires l.Valid() && TimeStep(Run(l, ts).prevTime, t.now) >= 1
    ensures Pid(Gains(0.0, 0.0, 0.0), Run(l, ts), t) == 0.0
  {
    hide TimeStep, Window, Sum, Run, Advance, Errors, Slope;
  }

  // ---------------------------------------------------------------------------------------------
  // Timing over whole runs
  // ---------------------------------------------------------------------------------------------

  /** The reading that tick k is measured from. */
  function ReadingBefore(l: Loop, ts: seq<Tick>, k: nat): TimeVal
    requires k <= |ts|
  {
    if k == 0 then l.prevTime else ts[k - 1].now
  }

  /** The clock never runs backwards. */
  predicate Monotone(l: Loop, ts: seq<Tick>) {
    forall k :: 0 <= k < |ts| ==> ReadingBefore(l, ts, k).Micros() <= ts[k].now.Micros()
  }

  /** The sum of all time steps of a run. */
  function TotalSteps(l: Loop, ts: seq<Tick>): int
    requires l.Valid()
  {
    if ts == [] then 0
    else TotalSteps(l, ts[..|ts| - 1]) + TimeStep(Run(l, ts[..|ts| - 1]).prevTime, ts[|ts| - 1].now)
  }

  /** Rounding errors add up to at most half a millisecond a tick. */
  lemma {:induction false} TimingErrorBounded(l: Loop, ts: seq<Tick>)
    requires l.Valid() && Monotone(l, ts)
    ensures var elapsed := Run(l, ts).prevTime.Micros() - l.prevTime.Micros();
            -500 * |ts| <= 1000 * TotalSteps(l, ts) - elapsed <= 500 * |ts|
  {
    if ts != [] {
      var before, last := ts[..|ts| - 1], ts[|ts| - 1];
      forall k | 0 <= k < |before|
        ensures ReadingBefore(l, before, k).Micros() <= before[k].now.Micros()
      {
        assert ReadingBefore(l, ts, k).Micros() <= ts[k].now.Micros();
      }
      TimingErrorBounded(l, before);
      assert ReadingBefore(l, ts, |before|).Micros() <= last.now.Micros();
      assert Run(l, before).prevTime == ReadingBefore(l, ts, |before|);
      TimeStepRounds(Run(l, before).prevTime, last.now);
    }
  }

  // ---------------------------------------------------------------------------------------------
  // Bounds
  // ---------------------------------------------------------------------------------------------

  /** Every remembered error lies between lo and hi. */
  predicate Within(l: Loop, lo: real, hi: real) {
    && (forall k :: 0 <= k < |l.errors| ==> lo <= l.errors[k] <= hi)
    && lo <= l.prevError <= hi
  }

  lemma {:induction false} RunWithin(l: Loop, ts: seq<Tick>, lo: real, hi: real)
    requires l.Valid() && Within(l, lo, hi)
    requires forall k :: 0 <= k < |ts| ==> lo <= ts[k].error <= hi
    ensures Within(Run(l, ts), lo, hi)
  {
    if ts != [] {
      RunWithin(l, ts[..|ts| - 1], lo, hi);
    }
  }

  /** After twenty ticks the initial contents no longer matter. */
  lemma WarmRunWithin(l: Loop, ts: seq<Tick>, lo: real, hi: real)
    requires l.Valid() && |ts| >= NUM_ERRORS
    requires forall k :: 0 <= k < |ts| ==> lo <= ts[k].error <= hi
    ensures Within(Run(l, ts), lo, hi)
  {
    hide Run, Window;
    var r := Run(l, ts);
    SumIsSlidingWindow(l, ts);
    PreviousErrorIsCurrentSlot(l, ts);
    forall k | 0 <= k < NUM_ERRORS
      ensures lo <= r.errors[k] <= hi
    {
      ErrorInWindow(r, k);
    }
  }

  /** Where a slot of the buffer is in time order. */
  lemma ErrorInWindow(l: Loop, k: nat)
    requires l.Valid() && k < NUM_ERRORS
    ensures l.errors[k] == Window(l)[if k <= l.i then NUM_ERRORS - 1 - l.i + k else k - l.i - 1]
  {
    if k <= l.i {
      assert l.errors[..l.i + 1][k] == l.errors[k];
    } else {
      assert l.errors[l.i + 1..][k - l.i - 1] == l.errors[k];
    }
  }

  /** The errors that enter the PID value of the tick t after a run: bounded if all measured errors are
    * and the initial contents either are or have been overwritten.
    */
  lemma RunWithinEither(l: Loop, ts: seq<Tick>, t: Tick, lo: real, hi: real)
    requires l.Valid() && (Within(l, lo, hi) || |ts| + 1 >= NUM_ERRORS)
    requires forall k :: 0 <= k < |ts| + 1 ==> lo <= (ts + [t])[k].error <= hi
    ensures Within(Advance(Run(l, ts), t), lo, hi) && lo <= Run(l, ts).prevError <= hi
  {
    forall k | 0 <= k < |ts|
      ensures lo <= ts[k].error <= hi
    {
      assert (ts + [t])[k] == ts[k];
    }
    RunStep(l, ts, t);
    if Within(l, lo, hi) {
      RunWithin(l, ts + [t], lo, hi);
      RunWithin(l, ts, lo, hi);
    } else {
      WarmRunWithin(l, ts + [t], lo, hi);
      PreviousErrorIsCurrentSlot(l, ts);
    }
  }

  lemma MulMonotone(a: real, x: real, y: real)
    requires a >= 0.0 && x <= y
    ensures a * x <= a * y
  {
  }

  lemma QuotientUpperBound(x: real, m: real, b: real)
    requires m >= 1.0 && 0.0 <= b && x <= b
    ensures x / m <= b
  {
    assert x / m * m == x;
    if x / m > b {
      MulMonotone(x / m, 1.0, m);
    }
  }

  lemma QuotientBound(x: real, n: int, b: real)
    requires n >= 1 && -b <= x <= b
    ensures -b <= x / n as real <= b
  {
    QuotientUpperBound(x, n as real, b);
    QuotientUpperBound(-x, n as real, b);
    assert -x / n as real == -(x / n as real);
  }

  lemma ScaledBounds(a: real, x: real, lo: real, hi: real)
    requires a >= 0.0 && lo <= x <= hi
    ensures a * lo <= a * x <= a * hi
  {
  }

  lemma SymmetricScaledBounds(a: real, x: real, w: real)
    requires a >= 0.0 && -w <= x <= w
    ensures -(a * w) <= a * x <= a * w
  {
    MulMonotone(a, -x, w);
    MulMonotone(a, x, w);
    assert a * -x == -(a * x);
  }

  lemma CombineWithin(kp: real, ki: real, kd: real, e: real, s: real, d: real,
                      lo: real, hi: real, slo: real, shi: real, w: real)
    requires kp >= 0.0 && ki >= 0.0 && kd >= 0.0
    requires lo <= e <= hi && slo <= s <= shi && -w <= d <= w
    ensures kp * lo + ki * slo - kd * w <= kp * e + ki * s + kd * d <= kp * hi + ki * shi + kd * w
  {
    ScaledBounds(kp, e, lo, hi);
    ScaledBounds(ki, s, slo, shi);
    SymmetricScaledBounds(kd, d, w);
  }

  lemma CombineBounds(g: Gains, e: real, s: real, d: real, lo: real, hi: real)
    requires g.Nonnegative() && lo <= e <= hi && 20.0 * lo <= s <= 20.0 * hi && -(hi - lo) <= d <= hi - lo
    ensures g.kp * lo + g.ki * (20.0 * lo) - g.kd * (hi - lo) <= Combine(g, e, s, d)
    ensures Combine(g, e, s, d) <= g.kp * hi + g.ki * (20.0 * hi) + g.kd * (hi - lo)
  {
    CombineWithin(g.kp, g.ki, g.kd, e, s, d, lo, hi, 20.0 * lo, 20.0 * hi, hi - lo);
  }

  /** The PID value for errors between lo and hi. */
  lemma PidBounds(g: Gains, l: Loop, t: Tick, lo: real, hi: real)
    requires l.Valid() && Within(Advance(l, t), lo, hi) && lo <= l.prevError <= hi
    requires g.Nonnegative() && TimeStep(l.prevTime, t.now) >= 1
    ensures g.kp * lo + g.ki * (20.0 * lo) - g.kd * (hi - lo) <= Pid(g, l, t)
    ensures Pid(g, l, t) <= g.kp * hi + g.ki * (20.0 * hi) + g.kd * (hi - lo)
  {
    hide TimeStep, Combine;
    SumBounds(Advance(l, t).errors, lo, hi);
    QuotientBound(t.error - l.prevError, TimeStep(l.prevTime, t.now), hi - lo);
    CombineBounds(g, t.error, Sum(Advance(l, t).errors),
                  (t.error - l.prevError) / TimeStep(l.prevTime, t.now) as real, lo, hi);
  }
}

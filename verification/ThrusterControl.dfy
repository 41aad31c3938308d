/** The thruster sender (src/thruster_control/thruster_control.cpp): it transmits the thrust tuple, cut
  * to integers, only when it differs from the tuple it sampled last.
  */
module ThrusterControl {
  import opened Wrappers
  import opened CommandText
  import opened PidLoop
  import opened Thrusts

  /** Four thrusts as the motor controller receives them. */
  datatype Motors = Motors(surgePort: int, surgeStarboard: int, heaveA: int, heaveB: int)

  const MOTORS_OFF := Motors(0, 0, 0, 0)

  function Truncated(t: Thrust): Motors {
    Motors(Truncate(t.surgePort), Truncate(t.surgeStarboard), Truncate(t.heaveA), Truncate(t.heaveB))
  }

  /** The text that sprintf makes of a thrust. */
  function CommandOf(t: Thrust): string {
    var m := Truncated(t);
    FourInts(m.surgePort, m.surgeStarboard, m.heaveA, m.heaveB)
  }

  /** What one tick transmits, given the sample before it. */
  function Transmission(prev: Thrust, sample: Thrust): Option<string> {
    if sample != prev then Some(CommandOf(sample)) else None
  }

  class ThrusterControl {
    var spPrev: real
    var ssPrev: real
    var haPrev: real
    var hbPrev: real

    function Prev(): Thrust
      reads this
    {
      Thrust(spPrev, ssPrev, haPrev, hbPrev)
    }

    /** The remembered values are global variables, so they start at zero. */
    constructor ()
      ensures Prev() == NO_THRUST
    {
      spPrev, ssPrev, haPrev, hbPrev := 0.0, 0.0, 0.0, 0.0;
    }

    /** One iteration; `thrust` is the tuple it finds under the lock. */
    method Iterate(thrust: Thrust) returns (sent: Option<string>)
      modifies this
      ensures Prev() == thrust
      ensures sent == Transmission(old(Prev()), thrust)
    {
      sent := None;
      if || spPrev != thrust.surgePort
         || ssPrev != thrust.surgeStarboard
         || haPrev != thrust.heaveA
         || hbPrev != thrust.heaveB
      {
        var buf := FourInts(Truncate(thrust.surgePort), Truncate(thrust.surgeStarboard),
                            Truncate(thrust.heaveA), Truncate(thrust.heaveB));
        spPrev := thrust.surgePort;
        ssPrev := thrust.surgeStarboard;
        haPrev := thrust.heaveA;
        hbPrev := thrust.heaveB;
        sent := Some(buf);
      }
    }
  }

  /** The endless loop, over any number of samples. */
  method InitThrusterControl(c: ThrusterControl, samples: seq<Thrust>) returns (wire: seq<Option<string>>)
    modifies c
    ensures |wire| == |samples|
    ensures forall k :: 0 <= k < |samples| ==>
              wire[k] == Transmission(SampleBefore(old(c.Prev()), samples, k), samples[k])
    ensures c.Prev() == SampleBefore(old(c.Prev()), samples, |samples|)
  {
    hide CommandOf, FourInts;
    wire := [];
    ghost var prev := c.Prev();
    for n := 0 to |samples|
      invariant |wire| == n && c.Prev() == SampleBefore(prev, samples, n)
      invariant forall k :: 0 <= k < n ==> wire[k] == Transmission(SampleBefore(prev, samples, k), samples[k])
    {
      var sent := c.Iterate(samples[n]);
      wire := wire + [sent];
    }
  }

  // ---------------------------------------------------------------------------------------------
  // The receiver
  // ---------------------------------------------------------------------------------------------

  /** What a receiver reads out of a command. */
  function MotorsOf(text: string): Motors {
    var ts := Tokens(text);
    if |ts| < 4 then MOTORS_OFF else Motors(Atoi(ts[0]), Atoi(ts[1]), Atoi(ts[2]), Atoi(ts[3]))
  }

  /** A command read back gives the thrust cut to integers. */
  lemma CommandReadBack(t: Thrust)
    ensures MotorsOf(CommandOf(t)) == Truncated(t)
  {
    var m := Truncated(t);
    TokensOfFourInts(m.surgePort, m.surgeStarboard, m.heaveA, m.heaveB);
    ReadInvertsPrint(m.surgePort);
    ReadInvertsPrint(m.surgeStarboard);
    ReadInvertsPrint(m.heaveA);
    ReadInvertsPrint(m.heaveB);
  }

  /** A receiver that keeps its last command, after the first n ticks of a sender that starts at
    * `prev`; write k gets through if delivered[k].
    */
  function MotorsAfter(held: Motors, prev: Thrust, samples: seq<Thrust>, delivered: seq<bool>, n: nat): Motors
    requires n <= |samples| == |delivered|
  {
    if n == 0 then held
    else
      var sent := Transmission(SampleBefore(prev, samples, n - 1), samples[n - 1]);
      if sent.Some? && delivered[n - 1] then MotorsOf(sent.value)
      else MotorsAfter(held, prev, samples, delivered, n - 1)
  }

  /** The last sample whose transmission got through. */
  function LastDelivered(prev: Thrust, samples: seq<Thrust>, delivered: seq<bool>, n: nat): Thrust
    requires n <= |samples| == |delivered|
  {
    if n == 0 then prev
    else if samples[n - 1] != SampleBefore(prev, samples, n - 1) && delivered[n - 1] then samples[n - 1]
    else LastDelivered(prev, samples, delivered, n - 1)
  }

  lemma {:induction false} MotorsFollowDelivery(prev: Thrust, samples: seq<Thrust>, delivered: seq<bool>, n: nat)
    requires n <= |samples| == |delivered|
    ensures MotorsAfter(Truncated(prev), prev, samples, delivered, n)
         == Truncated(LastDelivered(prev, samples, delivered, n))
  {
    hide MotorsOf, CommandOf, Truncated;
    if n > 0 {
      MotorsFollowDelivery(prev, samples, delivered, n - 1);
      CommandReadBack(samples[n - 1]);
    }
  }

  /** Whether the latest transmission among the first n ticks, if there was any, got through. */
  function LatestDelivered(prev: Thrust, samples: seq<Thrust>, delivered: seq<bool>, n: nat): bool
    requires n <= |samples| == |delivered|
  {
    n == 0
    || (if samples[n - 1] != SampleBefore(prev, samples, n - 1) then delivered[n - 1]
        else LatestDelivered(prev, samples, delivered, n - 1))
  }

  lemma {:induction false} DeliveredIsCurrent(prev: Thrust, samples: seq<Thrust>, delivered: seq<bool>, n: nat)
    requires n <= |samples| == |delivered| && LatestDelivered(prev, samples, delivered, n)
    ensures LastDelivered(prev, samples, delivered, n) == SampleBefore(prev, samples, n)
  {
    if n > 0 && samples[n - 1] == SampleBefore(prev, samples, n - 1) {
      DeliveredIsCurrent(prev, samples, delivered, n - 1);
    }
  }

  /** Sending only changes is as good as always sending exactly as long as the latest transmission got
    * through: the receiver holds the current sample cut to integers after tick n if and only if it did,
    * or a lost one would have made no difference. In any case it holds the last sample delivered.
    */
  lemma ChangeOnlyIsAlwaysSending(samples: seq<Thrust>, delivered: seq<bool>, n: nat)
    requires 0 < n <= |samples| == |delivered|
    ensures var held, last := MotorsAfter(MOTORS_OFF, NO_THRUST, samples, delivered, n),
                              LastDelivered(NO_THRUST, samples, delivered, n);
            && held == Truncated(last)
            && (LatestDelivered(NO_THRUST, samples, delivered, n) ==> last == samples[n - 1])
            && (held == Truncated(samples[n - 1]) <==>
                LatestDelivered(NO_THRUST, samples, delivered, n) || Truncated(last) == Truncated(samples[n - 1]))
  {
    assert Truncated(NO_THRUST) == MOTORS_OFF;
    MotorsFollowDelivery(NO_THRUST, samples, delivered, n);
    if LatestDelivered(NO_THRUST, samples, delivered, n) {
      DeliveredIsCurrent(NO_THRUST, samples, delivered, n);
    }
  }

  /** A lost transmission is not repeated: when the first one is lost, the receiver is still off after a
    * second tick that samples the same thrust, though it would have got through.
    */
  lemma LostTransmissionIsNotRepeated(t: Thrust)
    requires Truncated(t) != MOTORS_OFF
    ensures !LatestDelivered(NO_THRUST, [t, t], [false, true], 2)
    ensures MotorsAfter(MOTORS_OFF, NO_THRUST, [t, t], [false, true], 2) == MOTORS_OFF
  {
    assert t != NO_THRUST;
    assert SampleBefore(NO_THRUST, [t, t], 1) == t && SampleBefore(NO_THRUST, [t, t], 0) == NO_THRUST;
    assert LastDelivered(NO_THRUST, [t, t], [false, true], 1) == NO_THRUST;
    ChangeOnlyIsAlwaysSending([t, t], [false, true], 2);
  }

  /** Such as a surge of 40 on the port side. */
  lemma SurgeMatters()
    ensures Truncated(Thrust(40.0, 0.0, 0.0, 0.0)) != MOTORS_OFF
  {
    assert Truncate(40.0) == 40;
  }

  /** m is x cut towards zero. */
  predicate TowardZero(x: real, m: int) {
    && (x >= 0.0 ==> m as real <= x < m as real + 1.0)
    && (x <= 0.0 ==> m as real - 1.0 < x <= m as real)
  }

  lemma TruncateIsTowardZero(x: real)
    ensures TowardZero(x, Truncate(x))
  {
  }

  /** What a new sample puts on the wire: port and starboard surge and the two heaves, in this order, each cut
    * towards zero.
    */
  lemma TransmissionIs(prev: Thrust, sample: Thrust) returns (a: int, b: int, c: int, d: int)
    requires sample != prev
    ensures TowardZero(sample.surgePort, a) && TowardZero(sample.surgeStarboard, b)
    ensures TowardZero(sample.heaveA, c) && TowardZero(sample.heaveB, d)
    ensures Transmission(prev, sample) == Some(PrintInt(a) + "," + PrintInt(b) + "," + PrintInt(c) + "," + PrintInt(d))
  {
    hide PrintInt, Truncate;
    a, b := Truncate(sample.surgePort), Truncate(sample.surgeStarboard);
    c, d := Truncate(sample.heaveA), Truncate(sample.heaveB);
    TruncateIsTowardZero(sample.surgePort);
    TruncateIsTowardZero(sample.surgeStarboard);
    TruncateIsTowardZero(sample.heaveA);
    TruncateIsTowardZero(sample.heaveB);
  }

  /** The messages on the wire. */
  function Messages(wire: seq<Option<string>>): seq<string> {
    if wire == [] then []
    else Messages(wire[..|wire| - 1]) + (if wire[|wire| - 1].Some? then [wire[|wire| - 1].value] else [])
  }

  function Texts(thrusts: seq<Thrust>): seq<string> {
    seq(|thrusts|, k requires 0 <= k < |thrusts| => CommandOf(thrusts[k]))
  }

  /** The ticks whose sample differs from the one before. */
  function ChangeTicks(prev: Thrust, samples: seq<Thrust>): set<nat> {
    set k: nat | k < |samples| && samples[k] != SampleBefore(prev, samples, k)
  }

  lemma ChangeTicksStep(prev: Thrust, samples: seq<Thrust>, n: nat)
    requires |samples| == n + 1
    ensures |ChangeTicks(prev, samples)|
         == |ChangeTicks(prev, samples[..n])| + (if samples[n] != SampleBefore(prev, samples, n) then 1 else 0)
  {
    var changed := samples[n] != SampleBefore(prev, samples, n);
    var before := ChangeTicks(prev, samples[..n]);
    forall k: nat
      ensures k in ChangeTicks(prev, samples) <==> k in before || (k == n && changed)
    {
      if k < n {
        assert SampleBefore(prev, samples[..n], k) == SampleBefore(prev, samples, k);
      }
    }
    assert ChangeTicks(prev, samples) == if changed then before + {n} else before;
  }

  /** The messages are the texts of the changed samples, as many as there are changes. */
  lemma {:induction false} TransmissionsAreChanges(prev: Thrust, samples: seq<Thrust>, wire: seq<Option<string>>)
    requires |wire| == |samples|
    requires forall k :: 0 <= k < |samples| ==> wire[k] == Transmission(SampleBefore(prev, samples, k), samples[k])
    ensures Messages(wire) == Texts(Changes(prev, samples))
    ensures |Messages(wire)| == |ChangeTicks(prev, samples)|
  {
    hide CommandOf, ChangeTicks;
    if wire == [] {
      NoChangeTicks(prev);
    } else {
      var n := |samples| - 1;
      forall k | 0 <= k < n
        ensures wire[..n][k] == Transmission(SampleBefore(prev, samples[..n], k), samples[..n][k])
      {
        assert SampleBefore(prev, samples[..n], k) == SampleBefore(prev, samples, k);
      }
      TransmissionsAreChanges(prev, samples[..n], wire[..n]);
      ChangeTicksStep(prev, samples, n);
    }
  }

  lemma NoChangeTicks(prev: Thrust)
    ensures |ChangeTicks(prev, [])| == 0
  {
  }

  // ---------------------------------------------------------------------------------------------
  // From the text of a command to the text on the wire
  // ---------------------------------------------------------------------------------------------

  /** The effect of set_thrust (src/mission_control/actions.cpp:9-24) when nothing interferes. */
  function SetThrustEffect(mode: int, thrust: Thrust, cmd: Command): Thrust {
    if cmd.SetThrust? && mode > 0 then Thrust(cmd.surgePort, cmd.surgeStarboard, cmd.heaveA, cmd.heaveB)
    else thrust
  }

  lemma TruncateOfInt(i: int)
    ensures Truncate(i as real) == i
  {
  }

  /** The line `/set_thrust a,b,c,d`, handled while the vehicle is enabled, makes the next tick of the
    * sender transmit exactly the text `a,b,c,d`, unless that is the tuple it sampled last; while the
    * vehicle is disabled the line changes nothing.
    */
  lemma CommandTextRoundTrip(a: int, b: int, c: int, d: int, mode: int, thrust: Thrust, prev: Thrust)
    ensures var parsed := Interpret(Tokens(UpToNewline("/set_thrust " + FourInts(a, b, c, d) + "\n")));
            && parsed.Do?
            && var after := SetThrustEffect(mode, thrust, parsed.command);
               && (mode > 0 ==> Transmission(prev, after) ==
                                if prev == Thrust(a as real, b as real, c as real, d as real) then None
                                else Some(FourInts(a, b, c, d)))
               && (mode <= 0 ==> after == thrust)
  {
    hide Tokens, UpToNewline, PrintInt, FourInts, Interpret;
    LineOfFourInts(a, b, c, d);
    SetThrustLine(a, b, c, d);
    TruncateOfInt(a);
    TruncateOfInt(b);
    TruncateOfInt(c);
    TruncateOfInt(d);
  }

  lemma {:induction false} UpToNewlineOfLine(s: string)
    requires '\n' !in s
    ensures UpToNewline(s + "\n") == s
  {
    if s != [] {
      assert (s + "\n")[1..] == s[1..] + "\n";
      UpToNewlineOfLine(s[1..]);
    }
  }

  lemma PrintedIntHasNoNewline(i: int)
    ensures '\n' !in PrintInt(i)
  {
    PrintNatDigits(if i < 0 then -i else i);
  }

  lemma LineOfFourInts(a: int, b: int, c: int, d: int)
    ensures UpToNewline("/set_thrust " + FourInts(a, b, c, d) + "\n") == "/set_thrust " + FourInts(a, b, c, d)
  {
    PrintedIntHasNoNewline(a);
    PrintedIntHasNoNewline(b);
    PrintedIntHasNoNewline(c);
    PrintedIntHasNoNewline(d);
    UpToNewlineOfLine("/set_thrust " + FourInts(a, b, c, d));
  }
}

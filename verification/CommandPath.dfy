/** The way of a thrust command through the interleaved system: from the text of its line, past the mode
  * test, through the shared memory, to the text that the sender transmits.
  */
module CommandPath {
  import opened Thrusts
  import opened SharedState
  import opened Mutexes
  import opened AtomicWrites
  import opened Snapshots
  import opened ThrustHistory
  import opened Commands
  import opened ModeGate
  import Quiescence
  import CommandText
  import ThrusterControl

  /** Step b begins a set_thrust command on thread t. */
  predicate BeginsCommand(labels: seq<Label>, b: nat, t: nat) {
    Begins(labels, b, t, SetThrust)
  }

  /** From step b to step n nobody but t completes a thrust write. */
  ghost predicate NobodyElseWrites(states: seq<State>, labels: seq<Label>, b: nat, n: nat, t: nat)
    requires n < |states| == |labels| + 1
  {
    forall k :: b < k < n && CommitsThrust(states[k], labels[k]) ==> labels[k].t == t
  }

  /** The thrust that the command of step b writes is that of its arguments. */
  lemma CommandAction(states: seq<State>, labels: seq<Label>, b: nat, n: nat, t: nat)
    requires IsRun(states, labels) && Initial(states[0]) && b < n < |states| && t < |states[n].threads|
    requires BeginsCommand(labels, b, t) && Doing(states[n].threads[t], b)
    ensures ActionOf(states[n].threads[t]) == ByCommand(ThrustIn(labels[b].choice.args))
  {
    hide Step, CanStep, Program, Initial, Passes, CommitsThrust, Remembers, Keeps, ThrustIn;
    RunProgress(states, labels, b, n, t, SetThrust);
    RunHistory(states, labels, n, t);
    SetThrustKeeps();
    ThrustInArguments(states[n].threads[t].regs, labels[b].choice.args);
  }

  /** Once it has written, and nobody else has, its write is the last thrust action. */
  lemma {:induction false} CommandIsLast(states: seq<State>, labels: seq<Label>, b: nat, n: nat, t: nat)
    requires IsRun(states, labels) && Initial(states[0]) && b < n < |states| && t < |states[n].threads|
    requires BeginsCommand(labels, b, t) && Doing(states[n].threads[t], b) && NobodyElseWrites(states, labels, b, n, t)
    ensures var acts := Actions(states, labels, n);
            Quiescence.WritesBy(states, labels, b + 1, n, t) > 0 ==>
              acts != [] && acts[|acts| - 1] == ByCommand(ThrustIn(labels[b].choice.args))
  {
    hide Step, CanStep, Program, Initial, CommitsThrust, ActionOf, ThrustIn;
    if n > b + 1 {
      DoingBefore(states, labels, b, n, t);
      CommandIsLast(states, labels, b, n - 1, t);
      CommandAction(states, labels, b, n - 1, t);
    }
  }

  /** A handler that reads this line begins an activity with these arguments. */
  predicate Handles(line: string, a: Activity, args: Store) {
    var parsed := CommandText.Interpret(CommandText.Tokens(CommandText.UpToNewline(line)));
    && parsed.Do?
    && match parsed.command
       case SetThrust(surgePort, surgeStarboard, heaveA, heaveB) =>
         a == SharedState.SetThrust && ThrustIn(args) == Thrust(surgePort, surgeStarboard, heaveA, heaveB)
       case SetOrientation(pitch, roll, yaw) =>
         && a == SharedState.SetOrientation
         && args(DesiredPitch) == pitch && args(DesiredRoll) == roll && args(DesiredYaw) == yaw
       case SetMode(mode) => a == SharedState.SetMode && args(Mode) == mode as real
       case SetPidValues(kp, ki, kd) =>
         a == SharedState.SetPidValues && args(Kp) == kp && args(Ki) == ki && args(Kd) == kd
       case SetCurrentOrientation => a == SharedState.SetCurrentOrientation
       case SetDepth(depth) => a == SharedState.SetDepth && args(DesiredDepth) == depth
       case SetLa(laser, la) =>
         && a == SharedState.SetLa
         && args(LedsOn) == 0.0 && args(LaserOn) == laser as real && args(LaOn) == la as real
  }

  predicate LineSets(line: string, args: Store) {
    Handles(line, SetThrust, args)
  }

  lemma LineArguments(a: int, b: int, c: int, d: int, args: Store)
    requires LineSets("/set_thrust " + CommandText.FourInts(a, b, c, d) + "\n", args)
    ensures ThrustIn(args) == Thrust(a as real, b as real, c as real, d as real)
  {
    hide CommandText.Tokens, CommandText.UpToNewline, CommandText.FourInts, CommandText.Interpret, ThrustIn;
    ThrusterControl.LineOfFourInts(a, b, c, d);
    CommandText.SetThrustLine(a, b, c, d);
  }

  lemma {:induction false} ActionsStay(states: seq<State>, labels: seq<Label>, m: nat, n: nat)
    requires m <= n < |states| == |labels| + 1
    requires forall k :: m <= k < n ==> !CommitsThrust(states[k], labels[k])
    ensures Actions(states, labels, n) == Actions(states, labels, m)
  {
    hide CommitsThrust, ActionOf;
    if m < n {
      ActionsStay(states, labels, m, n - 1);
      assert !CommitsThrust(states[n - 1], labels[n - 1]);
    }
  }

  /** Step `begin` begins the thrust command of a line on thread t, which has read an enabling mode and is
    * finished by step m; from its beginning to step n nobody else completes a thrust write, nor does
    * thread t after step m, whatever else it does.
    */
  ghost predicate Undisturbed(
    states: seq<State>, labels: seq<Label>, begin: nat, m: nat, n: nat, t: nat, line: string)
    requires m <= n < |states| == |labels| + 1
  {
    && begin < m && BeginsCommand(labels, begin, t) && LineSets(line, labels[begin].choice.args)
    && Finished(states[m], begin, t) && ModeRead(states, labels, m, t) > 0.0
    && NobodyElseWrites(states, labels, begin, m, t)
    && forall k :: m <= k < n ==> !CommitsThrust(states[k], labels[k])
  }

  /** The whole way: in any interleaving, the line `/set_thrust a,b,c,d`, handled with an enabling mode
    * and with no other thrust write before a tick of the sender, makes that tick transmit exactly the
    * text `a,b,c,d`, unless the sender sampled the same tuple last.
    */
  lemma LineReachesWire(
    states: seq<State>, labels: seq<Label>, begin: nat, m: nat, n: nat, t: nat, a: int, b: int, c: int, d: int)
    requires IsRun(states, labels) && Initial(states[0]) && m <= n < |labels| && Sends(states[n], labels[n])
    ensures var sample := Thrust(a as real, b as real, c as real, d as real);
            var line := "/set_thrust " + CommandText.FourInts(a, b, c, d) + "\n";
            Undisturbed(states, labels, begin, m, n, t, line) ==>
              && states[n + 1].wire == states[n].wire + (if states[n].prev != sample then [sample] else [])
              && states[n + 1].prev == sample
              && ThrusterControl.CommandOf(sample) == CommandText.FourInts(a, b, c, d)
  {
    hide Step, CanStep, Initial, Sends, ThrustIn, CommandText.FourInts, ThrusterControl.CommandOf, LineSets;
    if Undisturbed(states, labels, begin, m, n, t, "/set_thrust " + CommandText.FourInts(a, b, c, d) + "\n") {
      LineArguments(a, b, c, d, labels[begin].choice.args);
      FinishedWrites(states, labels, begin, m, t, SetThrust);
      CommandIsLast(states, labels, begin, m, t);
      ActionsStay(states, labels, m, n);
      CommandReachesWire(states, labels, n, a, b, c, d);
    }
  }

  // ---------------------------------------------------------------------------------------------
  // The other commands, from their lines to the memory
  // ---------------------------------------------------------------------------------------------

  /** A word of a line. */
  predicate IsArgument(w: string) {
    CommandText.IsWord(w) && '\n' !in w
  }

  lemma LineOf(text: string, outcome: CommandText.Outcome)
    requires '\n' !in text && CommandText.Interpret(CommandText.Tokens(text)) == outcome
    ensures CommandText.Interpret(CommandText.Tokens(CommandText.UpToNewline(text + "\n"))) == outcome
  {
    hide CommandText.Interpret, CommandText.Tokens, CommandText.UpToNewline;
    ThrusterControl.UpToNewlineOfLine(text);
  }

  /** The current activity of thread t was begun by a handler that had read this line, and is complete. */
  ghost predicate HasHandled(states: seq<State>, labels: seq<Label>, n: nat, t: nat, line: string)
    requires n < |states| == |labels| + 1
  {
    && t < |states[n].threads|
    && var th := states[n].threads[t];
       && Complete(th) && th.stamps != [] && 1 <= th.stamps[0] <= |labels|
       && labels[th.stamps[0] - 1].choice.Begin?
       && Handles(line, labels[th.stamps[0] - 1].choice.activity, labels[th.stamps[0] - 1].choice.args)
  }

  /** The moment at which a thread completed the last block of its activity. */
  function Moment(s: State, t: nat): nat {
    if t < |s.threads| && s.threads[t].stamps != [] then s.threads[t].stamps[|s.threads[t].stamps| - 1] else 0
  }

  lemma HandledTakesEffect(states: seq<State>, labels: seq<Label>, n: nat, t: nat, line: string, a: Activity)
    requires IsRun(states, labels) && Initial(states[0]) && n < |states| && HasHandled(states, labels, n, t, line)
    requires IsSetter(a) && labels[states[n].threads[t].stamps[0] - 1].choice.activity == a
    ensures var args, moment := labels[states[n].threads[t].stamps[0] - 1].choice.args, Moment(states[n], t);
            && 0 < moment <= n
            && forall f :: Atomic(states, labels, moment)(f)
                           == if Sets(a, f) then args(f) else Atomic(states, labels, moment - 1)(f)
  {
    hide Step, CanStep, Initial, Handles, Atomic, IsSetter, Sets, Remembers, Keeps;
    RunHistory(states, labels, n, t);
    SetterHasTakenEffect(states, labels, n, t);
  }

  /** In any interleaving, a handled line `/set_pid_values kp,ki,kd` has set the three gains to these numbers. */
  lemma PidValuesLineTakesEffect(
    states: seq<State>, labels: seq<Label>, n: nat, t: nat, a: string, b: string, c: string)
    requires IsRun(states, labels) && Initial(states[0]) && n < |states|
    requires IsArgument(a) && IsArgument(b) && IsArgument(c)
    requires HasHandled(states, labels, n, t, "/set_pid_values " + a + "," + b + "," + c + "\n")
    ensures var moment := Moment(states[n], t);
            && 0 < moment <= n
            && Atomic(states, labels, moment)(Kp) == CommandText.Atof(a)
            && Atomic(states, labels, moment)(Ki) == CommandText.Atof(b)
            && Atomic(states, labels, moment)(Kd) == CommandText.Atof(c)
  {
    hide Step, CanStep, Initial, Atomic, Moment, IsRun, Complete;
    hide CommandText.Interpret, CommandText.Tokens, CommandText.UpToNewline, CommandText.Atof, CommandText.IsWord;
    CommandText.SetPidValuesLine(a, b, c);
    LineOf("/set_pid_values " + a + "," + b + "," + c, CommandText.Do(CommandText.SetPidValues(
      CommandText.Atof(a), CommandText.Atof(b), CommandText.Atof(c))));
    WhoSets(SetPidValues);
    WhatCommandsSet(Kp);
    WhatCommandsSet(Ki);
    WhatCommandsSet(Kd);
    HandledTakesEffect(states, labels, n, t, "/set_pid_values " + a + "," + b + "," + c + "\n", SetPidValues);
  }

  /** So has `/set_mode m` set the mode. */
  lemma ModeLineTakesEffect(states: seq<State>, labels: seq<Label>, n: nat, t: nat, a: string)
    requires IsRun(states, labels) && Initial(states[0]) && n < |states|
    requires IsArgument(a) && HasHandled(states, labels, n, t, "/set_mode " + a + "\n")
    ensures var moment := Moment(states[n], t);
            0 < moment <= n && Atomic(states, labels, moment)(Mode) == CommandText.Atoi(a) as real
  {
    hide Step, CanStep, Initial, Atomic, Moment, IsRun, Complete;
    hide CommandText.Interpret, CommandText.Tokens, CommandText.UpToNewline, CommandText.Atoi, CommandText.IsWord;
    CommandText.SetModeLine(a);
    LineOf("/set_mode " + a, CommandText.Do(CommandText.SetMode(CommandText.Atoi(a))));
    WhoSets(SetMode);
    WhatCommandsSet(Mode);
    HandledTakesEffect(states, labels, n, t, "/set_mode " + a + "\n", SetMode);
  }

  /** `/set_orientation p,r,y` the desired orientation. */
  lemma OrientationLineTakesEffect(
    states: seq<State>, labels: seq<Label>, n: nat, t: nat, a: string, b: string, c: string)
    requires IsRun(states, labels) && Initial(states[0]) && n < |states|
    requires IsArgument(a) && IsArgument(b) && IsArgument(c)
    requires HasHandled(states, labels, n, t, "/set_orientation " + a + "," + b + "," + c + "\n")
    ensures var moment := Moment(states[n], t);
            && 0 < moment <= n
            && Atomic(states, labels, moment)(DesiredPitch) == CommandText.Atof(a)
            && Atomic(states, labels, moment)(DesiredRoll) == CommandText.Atof(b)
            && Atomic(states, labels, moment)(DesiredYaw) == CommandText.Atof(c)
  {
    hide Step, CanStep, Initial, Atomic, Moment, IsRun, Complete;
    hide CommandText.Interpret, CommandText.Tokens, CommandText.UpToNewline, CommandText.Atof, CommandText.IsWord;
    CommandText.SetOrientationLine(a, b, c);
    LineOf("/set_orientation " + a + "," + b + "," + c, CommandText.Do(CommandText.SetOrientation(
      CommandText.Atof(a), CommandText.Atof(b), CommandText.Atof(c))));
    WhoSets(SetOrientation);
    WhatCommandsSet(DesiredPitch);
    WhatCommandsSet(DesiredRoll);
    WhatCommandsSet(DesiredYaw);
    HandledTakesEffect(states, labels, n, t, "/set_orientation " + a + "," + b + "," + c + "\n", SetOrientation);
  }

  /** `/set_depth d` the desired depth. */
  lemma DepthLineTakesEffect(states: seq<State>, labels: seq<Label>, n: nat, t: nat, a: string)
    requires IsRun(states, labels) && Initial(states[0]) && n < |states|
    requires IsArgument(a) && HasHandled(states, labels, n, t, "/set_depth " + a + "\n")
    ensures var moment := Moment(states[n], t);
            0 < moment <= n && Atomic(states, labels, moment)(DesiredDepth) == CommandText.Atof(a)
  {
    hide Step, CanStep, Initial, Atomic, Moment, IsRun, Complete;
    hide CommandText.Interpret, CommandText.Tokens, CommandText.UpToNewline, CommandText.Atof, CommandText.IsWord;
    CommandText.SetDepthLine(a);
    LineOf("/set_depth " + a, CommandText.Do(CommandText.SetDepth(CommandText.Atof(a))));
    WhoSets(SetDepth);
    WhatCommandsSet(DesiredDepth);
    HandledTakesEffect(states, labels, n, t, "/set_depth " + a + "\n", SetDepth);
  }

  /** `/set_la laser,actuator` the switches, with the leds off. */
  lemma LaLineTakesEffect(states: seq<State>, labels: seq<Label>, n: nat, t: nat, a: string, b: string)
    requires IsRun(states, labels) && Initial(states[0]) && n < |states|
    requires IsArgument(a) && IsArgument(b) && HasHandled(states, labels, n, t, "/set_la " + a + "," + b + "\n")
    ensures var moment := Moment(states[n], t);
            && 0 < moment <= n
            && Atomic(states, labels, moment)(LedsOn) == 0.0
            && Atomic(states, labels, moment)(LaserOn) == CommandText.Atoi(a) as real
            && Atomic(states, labels, moment)(LaOn) == CommandText.Atoi(b) as real
  {
    hide Step, CanStep, Initial, Atomic, Moment, IsRun, Complete;
    hide CommandText.Interpret, CommandText.Tokens, CommandText.UpToNewline, CommandText.Atoi, CommandText.IsWord;
    CommandText.SetLaLine(a, b);
    LineOf("/set_la " + a + "," + b, CommandText.Do(CommandText.SetLa(CommandText.Atoi(a), CommandText.Atoi(b))));
    WhoSets(SetLa);
    WhatCommandsSet(LedsOn);
    WhatCommandsSet(LaserOn);
    WhatCommandsSet(LaOn);
    HandledTakesEffect(states, labels, n, t, "/set_la " + a + "," + b + "\n", SetLa);
  }
}

/** strtok keeps its place in one variable of the whole program, and several threads use it: the handlers
  * of mission control and diagnostics, the depth sounder and the GPS receiver. This is what their calls do
  * to each other.
  */
module SharedTokens {
  import opened Wrappers
  import opened CommandText

  /** A call strtok(line, delimiters), or strtok(NULL, delimiters) where there is no line. The handlers
    * separate at spaces and commas, the sensors at commas alone.
    */
  datatype Call = Call(thread: nat, line: Option<string>, spaces: bool)

  predicate Separates(c: char, spaces: bool) {
    c == ',' || (spaces && c == ' ')
  }

  function Skip(s: string, spaces: bool): (r: string)
    ensures |r| <= |s|
    ensures r != [] ==> !Separates(r[0], spaces)
  {
    if s != [] && Separates(s[0], spaces) then Skip(s[1..], spaces) else s
  }

  function WordLength(s: string, spaces: bool): (n: nat)
    ensures n <= |s|
  {
    if s != [] && !Separates(s[0], spaces) then 1 + WordLength(s[1..], spaces) else 0
  }

  /** What a call returns when `rest` is what is left of the text it works on. */
  function Returned(rest: string, spaces: bool): (r: Option<string>)
    ensures r.Some? ==> |r.value| <= |rest|
  {
    var t := Skip(rest, spaces);
    if t == [] then None else Some(t[..WordLength(t, spaces)])
  }

  /** What is left after it. */
  function Left(rest: string, spaces: bool): (r: string)
    ensures |r| <= |rest|
  {
    var t := Skip(rest, spaces);
    if t == [] then [] else AfterToken(t, WordLength(t, spaces))
  }

  /** The text that call n works on. */
  function TextOf(calls: seq<Call>, n: nat): string
    requires n < |calls|
  {
    match calls[n].line
    case Some(line) => line
    case None => if n == 0 then [] else Left(TextOf(calls, n - 1), calls[n - 1].spaces)
  }

  function Result(calls: seq<Call>, n: nat): Option<string>
    requires n < |calls|
  {
    Returned(TextOf(calls, n), calls[n].spaces)
  }

  // ---------------------------------------------------------------------------------------------
  // Undisturbed calls
  // ---------------------------------------------------------------------------------------------

  lemma {:induction false} SkipIs(s: string)
    ensures Skip(s, true) == SkipDelimiters(s)
  {
    if s != [] {
      SkipIs(s[1..]);
    }
  }

  lemma {:induction false} WordLengthIs(s: string)
    ensures WordLength(s, true) == TokenLength(s)
  {
    if s != [] {
      WordLengthIs(s[1..]);
    }
  }

  /** Token k of a line. */
  function TokenAt(line: string, k: nat): Option<string> {
    if k < |Tokens(line)| then Some(Tokens(line)[k]) else None
  }

  lemma CallTakesToken(rest: string)
    ensures Returned(rest, true) == TokenAt(rest, 0)
    ensures Tokens(Left(rest, true)) == if Tokens(rest) == [] then [] else Tokens(rest)[1..]
  {
    var t := SkipDelimiters(rest);
    SkipIs(rest);
    WordLengthIs(t);
    if t == [] {
      assert Tokens(rest) == [] && Tokens([]) == [];
    }
  }

  /** Thread t has started a line in call b; the calls from there to n are its own and go on with it. */
  predicate Undisturbed(calls: seq<Call>, b: nat, n: nat, t: nat)
    requires n <= |calls|
  {
    forall m :: b < m < n ==> calls[m].thread == t
  }

  /** Thread t starts a line in call b and goes on with it, separating at spaces and commas, in call n. */
  predicate GoesOn(calls: seq<Call>, b: nat, n: nat, t: nat) {
    && b < n < |calls|
    && calls[b].thread == t && calls[b].line.Some? && calls[b].spaces
    && calls[n].thread == t
    && forall m :: b < m <= n && calls[m].thread == t ==> calls[m].line == None && calls[m].spaces
  }

  lemma {:induction false} UndisturbedText(calls: seq<Call>, b: nat, n: nat, t: nat)
    requires GoesOn(calls, b, n, t) && Undisturbed(calls, b, n, t)
    ensures forall k :: TokenAt(TextOf(calls, n), k) == TokenAt(calls[b].line.value, n - b + k)
    decreases n
  {
    hide Tokens, Left;
    CallTakesToken(TextOf(calls, n - 1));
    if n - 1 > b {
      UndisturbedText(calls, b, n - 1, t);
      forall k: nat
        ensures TokenAt(TextOf(calls, n), k) == TokenAt(calls[b].line.value, n - b + k)
      {
        assert TokenAt(TextOf(calls, n - 1), k + 1) == TokenAt(calls[b].line.value, n - b + k);
      }
    }
  }

  // ---------------------------------------------------------------------------------------------
  // Disturbed calls
  // ---------------------------------------------------------------------------------------------

  function Word(m: nat): (w: string)
    ensures |w| == m
  {
    seq(m, _ => 'x')
  }

  /** A line whose words get longer and longer, beginning with more than k characters. */
  function Stairs(i: nat, n: nat, k: nat): string
    decreases n - i
  {
    if i >= n then [] else Word(k + i + 1) + ("," + Stairs(i + 1, n, k))
  }

  lemma {:induction false} WordLengthOf(w: string, rest: string, spaces: bool)
    requires forall i :: 0 <= i < |w| ==> w[i] == 'x'
    ensures WordLength(w + ("," + rest), spaces) == |w|
  {
    if w == [] {
      assert w + ("," + rest) == "," + rest;
    } else {
      assert (w + ("," + rest))[1..] == w[1..] + ("," + rest);
      WordLengthOf(w[1..], rest, spaces);
    }
  }

  lemma StairStep(i: nat, n: nat, k: nat, spaces: bool)
    requires i < n
    ensures Returned(Stairs(i, n, k), spaces) == Some(Word(k + i + 1))
    ensures Left(Stairs(i, n, k), spaces) == Stairs(i + 1, n, k)
  {
    var w, s := Word(k + i + 1), Stairs(i, n, k);
    assert s[0] == w[0] == 'x';
    WordLengthOf(w, Stairs(i + 1, n, k), spaces);
    assert s[..|w|] == w && s[|w| + 1..] == Stairs(i + 1, n, k);
  }

  lemma {:induction false} StairTokens(i: nat, n: nat, k: nat, j: nat)
    requires i + j < n
    ensures TokenAt(Stairs(i, n, k), j) == Some(Word(k + i + j + 1))
    decreases j
  {
    hide Tokens, Stairs, Returned, Left;
    StairStep(i, n, k, true);
    CallTakesToken(Stairs(i, n, k));
    if j > 0 {
      StairTokens(i + 1, n, k, j - 1);
      assert TokenAt(Stairs(i + 1, n, k), j - 1) == TokenAt(Stairs(i, n, k), j);
    }
  }

  /** The length of the longest line that any call starts. */
  function Longest(calls: seq<Call>): (k: nat)
    ensures forall m :: 0 <= m < |calls| && calls[m].line.Some? ==> |calls[m].line.value| <= k
  {
    if calls == [] then 0
    else
      var last, k := calls[|calls| - 1], Longest(calls[..|calls| - 1]);
      if last.line.Some? && |last.line.value| > k then |last.line.value| else k
  }

  /** After stairs have been started in call b, a later call works on what all calls since have left of
    * them, or on a text started since, which is too short for any word of the stairs.
    */
  lemma {:induction false} StairsOrShort(calls: seq<Call>, b: nat, n: nat, size: nat, k: nat)
    requires b <= n < |calls| && n - b <= size && calls[b].line == Some(Stairs(0, size, k))
    requires forall m :: b < m < |calls| && calls[m].line.Some? ==> |calls[m].line.value| <= k
    ensures TextOf(calls, n) == Stairs(n - b, size, k) || |TextOf(calls, n)| <= k
  {
    hide Stairs, Left;
    if n > b && calls[n].line == None {
      StairsOrShort(calls, b, n - 1, size, k);
      StairStep(n - 1 - b, size, k, calls[n - 1].spaces);
    }
  }

  /** How many of the calls behind b, up to n, are by thread t. */
  function Own(calls: seq<Call>, b: nat, n: nat, t: nat): (k: nat)
    requires b <= n < |calls|
    ensures k <= n - b
  {
    if n == b then 0 else Own(calls, b, n - 1, t) + if calls[n].thread == t then 1 else 0
  }

  lemma {:induction false} OwnIsAll(calls: seq<Call>, b: nat, n: nat, t: nat)
    requires b <= n < |calls|
    ensures Own(calls, b, n, t) == n - b <==> forall m :: b < m <= n ==> calls[m].thread == t
  {
    if n > b {
      OwnIsAll(calls, b, n - 1, t);
    }
  }

  /** The calls, with another line in call b. */
  function Starting(calls: seq<Call>, b: nat, line: string): seq<Call>
    requires b < |calls|
  {
    calls[b := calls[b].(line := Some(line))]
  }

  /** The call returns the token of the line that is its turn. */
  predicate ReturnsItsToken(calls: seq<Call>, b: nat, n: nat, t: nat, line: string)
    requires b <= n < |calls|
  {
    Result(Starting(calls, b, line), n) == TokenAt(line, Own(calls, b, n, t))
  }

  lemma UndisturbedReturns(calls: seq<Call>, b: nat, n: nat, t: nat, line: string)
    requires GoesOn(calls, b, n, t) && Undisturbed(calls, b, n, t)
    ensures ReturnsItsToken(calls, b, n, t, line)
  {
    hide Tokens, Returned;
    var started := Starting(calls, b, line);
    UndisturbedText(started, b, n, t);
    CallTakesToken(TextOf(started, n));
    OwnIsAll(calls, b, n, t);
    assert TokenAt(TextOf(started, n), 0) == TokenAt(line, n - b + 0);
  }

  lemma DisturbedReturns(calls: seq<Call>, b: nat, n: nat, t: nat)
    requires GoesOn(calls, b, n, t) && !Undisturbed(calls, b, n, t)
    ensures !ReturnsItsToken(calls, b, n, t, Stairs(0, |calls|, Longest(calls)))
  {
    hide Stairs, Tokens, Returned, Left, TextOf, Longest;
    var size, k, own := |calls|, Longest(calls), Own(calls, b, n, t);
    var started := Starting(calls, b, Stairs(0, size, k));
    OwnIsAll(calls, b, n, t);
    StairsOrShort(started, b, n, size, k);
    StairStep(n - b, size, k, calls[n].spaces);
    StairTokens(0, size, k, own);
    assert |Word(k + own + 1)| != |Word(k + (n - b) + 1)|;
  }

  /** A call returns the token of its line that is its turn, whatever the line, if and only if no other
    * thread has called strtok since the line was started.
    */
  lemma TokenisedExactlyWhen(calls: seq<Call>, b: nat, n: nat, t: nat)
    requires GoesOn(calls, b, n, t)
    ensures (forall line :: ReturnsItsToken(calls, b, n, t, line)) <==> Undisturbed(calls, b, n, t)
  {
    hide ReturnsItsToken;
    if Undisturbed(calls, b, n, t) {
      forall line
        ensures ReturnsItsToken(calls, b, n, t, line)
      {
        UndisturbedReturns(calls, b, n, t, line);
      }
    } else {
      DisturbedReturns(calls, b, n, t);
    }
  }

  /** A sentence of the depth sounder that comes between makes its depth the thrust that is set. */
  lemma DepthBecomesThrust()
    ensures var command, sentence := "/set_thrust 9,9,0,0", "$D,24";
            var calls := [Call(0, Some(command), true), Call(1, Some(sentence), false), Call(0, None, true)];
            Result(calls, 2) == Some("24")
  {
    var calls := [Call(0, Some("/set_thrust 9,9,0,0"), true), Call(1, Some("$D,24"), false), Call(0, None, true)];
    var s := "$D,24";
    assert s[1..] == "D,24" && s[2..] == ",24" && s[3..] == "24" && "D,24"[1..] == ",24";
    assert WordLength(",24", false) == 0 && WordLength("D,24", false) == 1 && WordLength(s, false) == 2;
    assert Left(s, false) == "24";
    assert "24"[1..] == "4" && "4"[1..] == "";
    assert WordLength("", true) == 0 && WordLength("4", true) == 1 && WordLength("24", true) == 2;
    assert TextOf(calls, 1) == s && TextOf(calls, 2) == "24";
    assert "24"[..2] == "24";
  }
}

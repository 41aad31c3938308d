/** The text protocol of mission control: decimal numbers, C strings in a buffer, strtok, and the
  * dispatch of one line (src/mission_control/mission_control.cpp, src/helpers.cpp).
  */
module CommandText {
  import opened Wrappers

  // ---------------------------------------------------------------------------------------------
  // Decimal numbers
  // ---------------------------------------------------------------------------------------------

  predicate IsDigit(c: char) {
    '0' <= c <= '9'
  }

  function DigitChar(d: nat): (c: char)
    requires d < 10
    ensures IsDigit(c) && DigitValue(c) == d
  {
    "0123456789"[d]
  }

  function DigitValue(c: char): nat
    requires IsDigit(c)
  {
    c as int - '0' as int
  }

  function PrintNat(n: nat): (s: string)
    ensures s != []
  {
    if n < 10 then [DigitChar(n)] else PrintNat(n / 10) + [DigitChar(n % 10)]
  }

  /** What printf writes for %d. */
  function PrintInt(i: int): (s: string)
    ensures s != []
  {
    if i < 0 then "-" + PrintNat(-i) else PrintNat(i)
  }

  /** How many digits s starts with. */
  function DigitRun(s: string): (n: nat)
    ensures n <= |s| && forall k :: 0 <= k < n ==> IsDigit(s[k])
  {
    if s != [] && IsDigit(s[0]) then 1 + DigitRun(s[1..]) else 0
  }

  function NatValue(s: string): nat
    requires forall k :: 0 <= k < |s| ==> IsDigit(s[k])
  {
    if s == [] then 0 else 10 * NatValue(s[..|s| - 1]) + DigitValue(s[|s| - 1])
  }

  function PowerOfTen(n: nat): (p: nat)
    ensures p > 0
  {
    if n == 0 then 1 else 10 * PowerOfTen(n - 1)
  }

  predicate IsSpace(c: char) {
    c == ' ' || '\t' <= c <= '\r'
  }

  function SkipSpace(s: string): string {
    if s != [] && IsSpace(s[0]) then SkipSpace(s[1..]) else s
  }

  /** Digits with an optional fraction and an optional exponent. */
  function Magnitude(s: string): real {
    var n := DigitRun(s);
    var whole := NatValue(s[..n]) as real;
    if n < |s| && s[n] == '.' then
      var f := s[n + 1..];
      var m := DigitRun(f);
      Scaled(whole + NatValue(f[..m]) as real / PowerOfTen(m) as real, if n + m > 0 then f[m..] else "")
    else Scaled(whole, if n > 0 then s[n..] else "")
  }

  /** x times the power of ten that the exponent at the head of s says, if there is one. */
  function Scaled(x: real, s: string): real {
    if s == [] || (s[0] != 'e' && s[0] != 'E') then x
    else
      var negative := |s| > 1 && s[1] == '-';
      var digits := s[if negative || (|s| > 1 && s[1] == '+') then 2 else 1..];
      var p := PowerOfTen(NatValue(digits[..DigitRun(digits)])) as real;
      if negative then x / p else x * p
  }

  /** atof, for decimal numbers. */
  function Atof(s: string): real {
    var t := SkipSpace(s);
    if t != [] && t[0] == '-' then -Magnitude(t[1..])
    else if t != [] && t[0] == '+' then Magnitude(t[1..])
    else Magnitude(t)
  }

  /** atoi. */
  function Atoi(s: string): int {
    var t := SkipSpace(s);
    if t != [] && t[0] == '-' then -(NatValue(t[1..][..DigitRun(t[1..])]) as int)
    else if t != [] && t[0] == '+' then NatValue(t[1..][..DigitRun(t[1..])])
    else NatValue(t[..DigitRun(t)])
  }

  lemma {:induction false} PrintNatDigits(n: nat)
    ensures forall k :: 0 <= k < |PrintNat(n)| ==> IsDigit(PrintNat(n)[k])
    ensures NatValue(PrintNat(n)) == n
  {
    if n < 10 {
      assert PrintNat(n)[..0] == [];
    } else {
      PrintNatDigits(n / 10);
      assert PrintNat(n)[..|PrintNat(n)| - 1] == PrintNat(n / 10);
    }
  }

  lemma {:induction false} DigitRunOfDigits(s: string)
    requires forall k :: 0 <= k < |s| ==> IsDigit(s[k])
    ensures DigitRun(s) == |s|
  {
    if s != [] {
      DigitRunOfDigits(s[1..]);
    }
  }

  lemma MagnitudeOfPrintNat(n: nat)
    ensures Magnitude(PrintNat(n)) == n as real
    ensures NatValue(PrintNat(n)[..DigitRun(PrintNat(n))]) == n
    ensures IsDigit(PrintNat(n)[0])
  {
    var s := PrintNat(n);
    PrintNatDigits(n);
    DigitRunOfDigits(s);
    assert s[..|s|] == s;
  }

  /** How a string that starts with a digit, or with a minus sign and a digit, is read. */
  lemma ReadUnsigned(t: string)
    requires t != [] && IsDigit(t[0])
    ensures Atof(t) == Magnitude(t) && Atoi(t) == NatValue(t[..DigitRun(t)])
  {
    hide Magnitude, NatValue, DigitRun;
  }

  lemma ReadNegative(t: string)
    requires t != [] && IsDigit(t[0])
    ensures Atof("-" + t) == -Magnitude(t) && Atoi("-" + t) == -(NatValue(t[..DigitRun(t)]) as int)
  {
    hide Magnitude, NatValue, DigitRun;
    assert ("-" + t)[1..] == t;
  }

  /** Reading back a printed integer gives the integer. */
  lemma ReadInvertsPrint(i: int)
    ensures Atof(PrintInt(i)) == i as real
    ensures Atoi(PrintInt(i)) == i
  {
    hide Atof, Atoi, Magnitude, NatValue, DigitRun, PrintNat;
    if i < 0 {
      MagnitudeOfPrintNat(-i);
      ReadNegative(PrintNat(-i));
    } else {
      MagnitudeOfPrintNat(i);
      ReadUnsigned(PrintNat(i));
    }
  }

  // Decimal numbers with a fraction or an exponent.

  predicate Digits(s: string) {
    forall k :: 0 <= k < |s| ==> IsDigit(s[k])
  }

  /** Digits behind digits: the first ones count that many powers of ten more. */
  lemma {:induction false} NatValueOfConcat(a: string, b: string)
    requires Digits(a) && Digits(b)
    ensures Digits(a + b) && NatValue(a + b) == NatValue(a) * PowerOfTen(|b|) + NatValue(b)
  {
    hide NatValue;
    if b == [] {
      NatValueOfNone();
      assert a + b == a;
    } else {
      var n := |b| - 1;
      NatValueOfConcat(a, b[..n]);
      NatValueStep(a + b);
      NatValueStep(b);
      assert (a + b)[..|a + b| - 1] == a + b[..n];
      TenTimes(NatValue(a), PowerOfTen(n));
    }
  }

  lemma NatValueOfNone()
    ensures NatValue([]) == 0
  {
  }

  lemma NatValueStep(s: string)
    requires s != [] && Digits(s)
    ensures NatValue(s) == 10 * NatValue(s[..|s| - 1]) + DigitValue(s[|s| - 1])
  {
  }

  lemma TenTimes(x: nat, p: nat)
    ensures x * (10 * p) == 10 * (x * p)
  {
  }

  lemma {:induction false} DigitRunUpTo(a: string, rest: string)
    requires Digits(a) && (rest == [] || !IsDigit(rest[0]))
    ensures DigitRun(a + rest) == |a|
  {
    if a == [] {
      assert a + rest == rest;
    } else {
      assert (a + rest)[1..] == a[1..] + rest;
      DigitRunUpTo(a[1..], rest);
    }
  }

  lemma MagnitudeOfFraction(s: string, n: nat, f: string)
    requires n == DigitRun(s) && n < |s| && s[n] == '.' && f == s[n + 1..] && DigitRun(f) == |f| && n > 0
    ensures Digits(f) && Magnitude(s) == NatValue(s[..n]) as real + NatValue(f) as real / PowerOfTen(|f|) as real
  {
    hide NatValue, PowerOfTen, DigitRun;
    assert f[..|f|] == f && f[|f|..] == "";
  }

  lemma MagnitudeOfWhole(s: string, n: nat)
    requires n == DigitRun(s) && n > 0 && (n < |s| ==> s[n] != '.')
    ensures Magnitude(s) == Scaled(NatValue(s[..n]) as real, s[n..])
  {
    hide NatValue, PowerOfTen, DigitRun, Scaled;
  }

  lemma ScaledByExponent(x: real, e: string)
    requires e != [] && Digits(e)
    ensures Scaled(x, "e" + e) == x * PowerOfTen(NatValue(e)) as real
    ensures Scaled(x, "e-" + e) == x / PowerOfTen(NatValue(e)) as real
  {
    hide NatValue, PowerOfTen, DigitRun;
    assert ("e" + e)[1..] == e && ("e-" + e)[2..] == e && IsDigit(e[0]);
    DigitRunOfDigits(e);
    assert e[..|e|] == e;
  }

  lemma FractionIs(a: string, f: string)
    requires a != [] && Digits(a) && Digits(f)
    ensures Atof(a + "." + f) == NatValue(a) as real + NatValue(f) as real / PowerOfTen(|f|) as real
  {
    hide NatValue, PowerOfTen, DigitRun, Magnitude, Atof, Atoi, Scaled;
    var s := a + "." + f;
    assert s == a + ("." + f) && s[|a| + 1..] == f && s[..|a|] == a && s[0] == a[0];
    DigitRunUpTo(a, "." + f);
    DigitRunOfDigits(f);
    ReadUnsigned(s);
    MagnitudeOfFraction(s, |a|, f);
  }

  lemma RealOfSum(x: nat, p: nat, y: nat)
    ensures (x * p + y) as real == x as real * p as real + y as real
  {
  }

  /** A number with a fraction, times ten to the number of its decimals, is the number of all its digits. */
  lemma ReadFraction(a: string, f: string)
    requires a != [] && Digits(a) && Digits(f)
    ensures Digits(a + f)
    ensures Atof(a + "." + f) * PowerOfTen(|f|) as real == NatValue(a + f) as real
  {
    hide NatValue, PowerOfTen, DigitRun, Atof;
    var x, y, p := NatValue(a), NatValue(f), PowerOfTen(|f|);
    FractionIs(a, f);
    NatValueOfConcat(a, f);
    RealOfSum(x, p, y);
    QuotientTimes(x as real, y as real, p as real);
  }

  lemma QuotientTimes(x: real, y: real, p: real)
    requires p > 0.0
    ensures (x + y / p) * p == x * p + y
  {
    assert y / p * p == y;
  }

  /** An exponent counts powers of ten. */
  lemma ReadExponent(a: string, e: string)
    requires a != [] && Digits(a) && e != [] && Digits(e)
    ensures Atof(a + "e" + e) == NatValue(a) as real * PowerOfTen(NatValue(e)) as real
    ensures Atof(a + "e-" + e) == NatValue(a) as real / PowerOfTen(NatValue(e)) as real
  {
    hide NatValue, PowerOfTen, DigitRun, Magnitude, Atof, Atoi, Scaled;
    ReadScaled(a, "e" + e);
    ReadScaled(a, "e-" + e);
    assert a + "e" + e == a + ("e" + e) && a + "e-" + e == a + ("e-" + e);
    ScaledByExponent(NatValue(a) as real, e);
  }

  lemma ReadScaled(a: string, rest: string)
    requires a != [] && Digits(a) && rest != [] && !IsDigit(rest[0]) && rest[0] != '.'
    ensures Atof(a + rest) == Scaled(NatValue(a) as real, rest)
  {
    hide NatValue, PowerOfTen, DigitRun, Magnitude, Atof, Atoi, Scaled;
    var s := a + rest;
    assert s[..|a|] == a && s[|a|..] == rest && s[0] == a[0];
    DigitRunUpTo(a, rest);
    ReadUnsigned(s);
    MagnitudeOfWhole(s, |a|);
  }

  /** A sign. */
  lemma ReadSign(t: string)
    requires t != [] && IsDigit(t[0])
    ensures Atof("-" + t) == -Atof(t) && Atof("+" + t) == Atof(t)
    ensures Atoi("-" + t) == -Atoi(t) && Atoi("+" + t) == Atoi(t)
  {
    hide Magnitude, NatValue, DigitRun;
    assert ("-" + t)[1..] == t && ("+" + t)[1..] == t;
  }

  // ---------------------------------------------------------------------------------------------
  // Tokens
  // ---------------------------------------------------------------------------------------------

  predicate IsDelimiter(c: char) {
    c == ' ' || c == ','
  }

  function SkipDelimiters(s: string): (r: string)
    ensures |r| <= |s|
    ensures r != [] ==> !IsDelimiter(r[0])
  {
    if s != [] && IsDelimiter(s[0]) then SkipDelimiters(s[1..]) else s
  }

  /** The length of the token that s starts with. */
  function TokenLength(s: string): (n: nat)
    ensures n <= |s|
    ensures s != [] && !IsDelimiter(s[0]) ==> n > 0
  {
    if s != [] && !IsDelimiter(s[0]) then 1 + TokenLength(s[1..]) else 0
  }

  /** What is left after the token of length n and the delimiter that ends it. */
  function AfterToken(s: string, n: nat): string
    requires n <= |s|
  {
    if n < |s| then s[n + 1..] else []
  }

  function Tokens(s: string): seq<string>
    decreases |s|
  {
    var t := SkipDelimiters(s);
    if t == [] then [] else [t[..TokenLength(t)]] + Tokens(AfterToken(t, TokenLength(t)))
  }

  /** A word contains no delimiter and is not empty. */
  predicate IsWord(w: string) {
    w != [] && forall k :: 0 <= k < |w| ==> !IsDelimiter(w[k])
  }

  lemma {:induction false} TokenLengthOfWord(w: string, rest: string)
    requires forall k :: 0 <= k < |w| ==> !IsDelimiter(w[k])
    requires rest == [] || IsDelimiter(rest[0])
    ensures TokenLength(w + rest) == |w|
  {
    if w == [] {
      assert w + rest == rest;
    } else {
      assert (w + rest)[1..] == w[1..] + rest;
      TokenLengthOfWord(w[1..], rest);
    }
  }

  lemma TokensOfWordAndRest(w: string, d: char, rest: string)
    requires IsWord(w) && IsDelimiter(d)
    ensures Tokens(w + [d] + rest) == [w] + Tokens(rest)
  {
    var s := w + [d] + rest;
    assert s == w + ([d] + rest);
    TokenLengthOfWord(w, [d] + rest);
    assert s[..|w|] == w && s[|w| + 1..] == rest;
  }

  lemma TokensOfWord(w: string)
    requires IsWord(w)
    ensures Tokens(w) == [w]
  {
    TokenLengthOfWord(w, []);
    assert w + [] == w && w[..|w|] == w;
  }

  lemma PrintedIntIsWord(i: int)
    ensures IsWord(PrintInt(i))
  {
    PrintNatDigits(if i < 0 then -i else i);
    forall k | 0 <= k < |PrintInt(i)|
      ensures !IsDelimiter(PrintInt(i)[k])
    {
      if i < 0 && k > 0 {
        assert PrintInt(i)[k] == PrintNat(-i)[k - 1];
      }
    }
  }

  // ---------------------------------------------------------------------------------------------
  // Commands
  // ---------------------------------------------------------------------------------------------

  datatype Command =
    | SetThrust(surgePort: real, surgeStarboard: real, heaveA: real, heaveB: real)
    | SetOrientation(pitch: real, roll: real, yaw: real)
    | SetMode(mode: int)
    | SetPidValues(kp: real, ki: real, kd: real)
    | SetCurrentOrientation
    | SetDepth(depth: real)
    | SetLa(laser: int, la: int)

  /** What a line makes the handler do. A missing argument makes it pass a null pointer to atof. */
  datatype Outcome = Nothing | Crash | Do(command: Command)

  function Interpret(ts: seq<string>): Outcome {
    if ts == [] then Nothing
    else if ts[0] == "/set_thrust" then
      if |ts| < 5 then Crash else Do(SetThrust(Atof(ts[1]), Atof(ts[2]), Atof(ts[3]), Atof(ts[4])))
    else if ts[0] == "/set_orientation" then
      if |ts| < 4 then Crash else Do(SetOrientation(Atof(ts[1]), Atof(ts[2]), Atof(ts[3])))
    else if ts[0] == "/set_mode" then
      if |ts| < 2 then Crash else Do(SetMode(Atoi(ts[1])))
    else if ts[0] == "/set_pid_values" then
      if |ts| < 4 then Crash else Do(SetPidValues(Atof(ts[1]), Atof(ts[2]), Atof(ts[3])))
    else if ts[0] == "/set_current_orientation" then
      Do(SetCurrentOrientation)
    else if ts[0] == "/set_depth" then
      if |ts| < 2 then Crash else Do(SetDepth(Atof(ts[1])))
    else if ts[0] == "/set_la" then
      if |ts| < 3 then Crash else Do(SetLa(Atoi(ts[1]), Atoi(ts[2])))
    else Nothing
  }

  /** Four integers as the text of a thrust. */
  function FourInts(a: int, b: int, c: int, d: int): string {
    PrintInt(a) + "," + PrintInt(b) + "," + PrintInt(c) + "," + PrintInt(d)
  }

  lemma TokensOfCommaList(i: int, rest: string)
    ensures Tokens(PrintInt(i) + "," + rest) == [PrintInt(i)] + Tokens(rest)
  {
    PrintedIntIsWord(i);
    TokensOfWordAndRest(PrintInt(i), ',', rest);
  }

  lemma TokensOfFourInts(a: int, b: int, c: int, d: int)
    ensures Tokens(FourInts(a, b, c, d)) == [PrintInt(a), PrintInt(b), PrintInt(c), PrintInt(d)]
  {
    hide PrintInt, Tokens;
    var cd := PrintInt(c) + "," + PrintInt(d);
    var bcd := PrintInt(b) + "," + cd;
    assert FourInts(a, b, c, d) == PrintInt(a) + "," + bcd;
    TokensOfCommaList(a, bcd);
    TokensOfCommaList(b, cd);
    TokensOfCommaList(c, PrintInt(d));
    PrintedIntIsWord(d);
    TokensOfWord(PrintInt(d));
  }

  /** The line of four integers sets exactly these thrusts. */
  lemma SetThrustLine(a: int, b: int, c: int, d: int)
    ensures Interpret(Tokens("/set_thrust " + FourInts(a, b, c, d)))
         == Do(SetThrust(a as real, b as real, c as real, d as real))
  {
    var w := "/set_thrust";
    assert IsWord(w);
    assert "/set_thrust " + FourInts(a, b, c, d) == w + [' '] + FourInts(a, b, c, d);
    TokensOfWordAndRest(w, ' ', FourInts(a, b, c, d));
    TokensOfFourInts(a, b, c, d);
    ReadInvertsPrint(a);
    ReadInvertsPrint(b);
    ReadInvertsPrint(c);
    ReadInvertsPrint(d);
  }

  // What each line does, for arguments that are any words.

  lemma TokensOfWords(w: string, a: string)
    requires IsWord(w) && IsWord(a)
    ensures Tokens(w + " " + a) == [w, a]
  {
    hide Tokens, IsWord;
    assert w + " " + a == w + [' '] + a;
    TokensOfWordAndRest(w, ' ', a);
    TokensOfWord(a);
  }

  lemma TokensOfTwoWords(w: string, a: string, b: string)
    requires IsWord(w) && IsWord(a) && IsWord(b)
    ensures Tokens(w + " " + a + "," + b) == [w, a, b]
  {
    hide Tokens, IsWord;
    assert w + " " + a + "," + b == w + [' '] + (a + [','] + b);
    TokensOfWordAndRest(w, ' ', a + [','] + b);
    TokensOfWordAndRest(a, ',', b);
    TokensOfWord(b);
  }

  lemma TokensOfThreeWords(w: string, a: string, b: string, c: string)
    requires IsWord(w) && IsWord(a) && IsWord(b) && IsWord(c)
    ensures Tokens(w + " " + a + "," + b + "," + c) == [w, a, b, c]
  {
    hide Tokens, IsWord;
    assert w + " " + a + "," + b + "," + c == w + [' '] + (a + [','] + (b + [','] + c));
    TokensOfWordAndRest(w, ' ', a + [','] + (b + [','] + c));
    TokensOfWordAndRest(a, ',', b + [','] + c);
    TokensOfWordAndRest(b, ',', c);
    TokensOfWord(c);
  }

  lemma SetOrientationLine(a: string, b: string, c: string)
    requires IsWord(a) && IsWord(b) && IsWord(c)
    ensures Interpret(Tokens("/set_orientation " + a + "," + b + "," + c))
         == Do(SetOrientation(pitch := Atof(a), roll := Atof(b), yaw := Atof(c)))
  {
    hide Tokens, Atof, Atoi;
    var w := "/set_orientation";
    assert "/set_orientation " == w + " ";
    TokensOfThreeWords(w, a, b, c);
  }

  lemma SetPidValuesLine(a: string, b: string, c: string)
    requires IsWord(a) && IsWord(b) && IsWord(c)
    ensures Interpret(Tokens("/set_pid_values " + a + "," + b + "," + c))
         == Do(SetPidValues(kp := Atof(a), ki := Atof(b), kd := Atof(c)))
  {
    hide Tokens, Atof, Atoi;
    var w := "/set_pid_values";
    assert "/set_pid_values " == w + " ";
    TokensOfThreeWords(w, a, b, c);
  }

  lemma SetModeLine(a: string)
    requires IsWord(a)
    ensures Interpret(Tokens("/set_mode " + a)) == Do(SetMode(mode := Atoi(a)))
  {
    hide Tokens, Atof, Atoi;
    var w := "/set_mode";
    assert "/set_mode " == w + " ";
    TokensOfWords(w, a);
  }

  lemma SetDepthLine(a: string)
    requires IsWord(a)
    ensures Interpret(Tokens("/set_depth " + a)) == Do(SetDepth(depth := Atof(a)))
  {
    hide Tokens, Atof, Atoi;
    var w := "/set_depth";
    assert "/set_depth " == w + " ";
    TokensOfWords(w, a);
  }

  lemma SetLaLine(a: string, b: string)
    requires IsWord(a) && IsWord(b)
    ensures Interpret(Tokens("/set_la " + a + "," + b)) == Do(SetLa(laser := Atoi(a), la := Atoi(b)))
  {
    hide Tokens, Atof, Atoi;
    var w := "/set_la";
    assert "/set_la " == w + " ";
    TokensOfTwoWords(w, a, b);
  }

  lemma SetCurrentOrientationLine()
    ensures Interpret(Tokens("/set_current_orientation")) == Do(SetCurrentOrientation)
  {
    hide Tokens, Atof, Atoi;
    TokensOfWord("/set_current_orientation");
  }

  /** The words that begin a command, and the number of arguments it needs. */
  lemma OtherLines(ts: seq<string>)
    ensures Interpret(ts) == Nothing <==>
              ts == [] || ts[0] !in ["/set_thrust", "/set_orientation", "/set_mode", "/set_pid_values",
                                     "/set_current_orientation", "/set_depth", "/set_la"]
    ensures Interpret(ts) == Crash <==>
              && ts != []
              && (|| (ts[0] == "/set_thrust" && |ts| - 1 < 4)
                  || ((ts[0] == "/set_orientation" || ts[0] == "/set_pid_values") && |ts| - 1 < 3)
                  || (ts[0] == "/set_la" && |ts| - 1 < 2)
                  || ((ts[0] == "/set_mode" || ts[0] == "/set_depth") && |ts| - 1 < 1))
  {
    hide Atof, Atoi;
  }

  // ---------------------------------------------------------------------------------------------
  // C strings in a buffer
  // ---------------------------------------------------------------------------------------------

  /** The string that starts at the head of s. */
  function CString(s: seq<char>): (r: string)
    ensures |r| <= |s| && r == s[..|r|]
    ensures |r| < |s| ==> s[|r|] == '\0'
    ensures forall k :: 0 <= k < |r| ==> r[k] != '\0'
  {
    if s == [] || s[0] == '\0' then []
    else
      var rest := CString(s[1..]);
      assert s[..|rest| + 1] == [s[0]] + s[1..][..|rest|];
      assert |rest| < |s| - 1 ==> s[1..][|rest|] == s[|rest| + 1];
      [s[0]] + rest
  }

  /** The buffer holds a terminated string from position `from` on. */
  predicate Terminated(s: seq<char>, from: nat) {
    from < |s| && |CString(s[from..])| < |s| - from
  }

  /** A string is determined by its characters and the terminator behind them. */
  lemma {:induction false} CStringIs(s: seq<char>, r: string)
    requires |r| < |s| && s[..|r|] == r && s[|r|] == '\0'
    requires forall k :: 0 <= k < |r| ==> r[k] != '\0'
    ensures CString(s) == r
  {
    if r != [] {
      assert s[1..][..|r| - 1] == r[1..];
      assert s[1..][|r| - 1] == s[|r|] && r == [r[0]] + r[1..];
      assert s[0] == s[..|r|][0] == r[0];
      CStringIs(s[1..], r[1..]);
    }
  }

  /** The first occurrence of a character in a string that contains it; otherwise the function of the
    * source returns nothing at all.
    */
  method StrIndex(haystack: array<char>, needle: char) returns (index: nat)
    requires Terminated(haystack[..], 0) && needle in CString(haystack[..])
    ensures index < |CString(haystack[..])| && CString(haystack[..])[index] == needle
    ensures needle !in CString(haystack[..])[..index]
  {
    ghost var s := CString(haystack[..]);
    assert haystack[..][0..] == haystack[..];
    index := 0;
    while haystack[index] != needle
      invariant index < |s| && needle !in s[..index]
      decreases |s| - index
    {
      assert s[..index + 1] == s[..index] + [s[index]];
      index := index + 1;
    }
  }

  /** s up to the first newline. */
  function UpToNewline(s: string): string {
    if s == [] || s[0] == '\n' then [] else [s[0]] + UpToNewline(s[1..])
  }

  lemma {:induction false} UpToNewlineIs(s: string, index: nat)
    requires index < |s| && s[index] == '\n' && '\n' !in s[..index]
    ensures UpToNewline(s) == s[..index]
  {
    if index > 0 {
      assert s[0] == s[..index][0];
      assert s[1..][..index - 1] == s[..index][1..];
      UpToNewlineIs(s[1..], index - 1);
    }
  }

  method StripNewline(str: array<char>)
    requires Terminated(str[..], 0) && '\n' in CString(str[..])
    modifies str
    ensures Terminated(str[..], 0)
    ensures CString(str[..]) == UpToNewline(old(CString(str[..])))
    ensures |UpToNewline(old(CString(str[..])))| < str.Length
    ensures str[..] == old(str[..])[|UpToNewline(old(CString(str[..])))| := '\0']
  {
    ghost var s := CString(str[..]);
    var index := StrIndex(str, '\n');
    UpToNewlineIs(s, index);
    str[index] := '\0';
    CStringIs(str[..], s[..index]);
    assert str[..][0..] == str[..];
  }

  /** What remains of a string at one of its positions. */
  lemma RestAt(b: string, pos: nat)
    requires Terminated(b, pos)
    ensures pos < |b|
    ensures b[pos] == '\0' ==> CString(b[pos..]) == []
    ensures IsDelimiter(b[pos]) ==> CString(b[pos..]) != [] && CString(b[pos..])[0] == b[pos]
    ensures b[pos] != '\0' ==>
              && Terminated(b, pos + 1)
              && CString(b[pos..]) != [] && CString(b[pos + 1..]) == CString(b[pos..])[1..]
    ensures b[pos] != '\0' && !IsDelimiter(b[pos]) ==>
              TokenLength(CString(b[pos..])) == 1 + TokenLength(CString(b[pos + 1..]))
    ensures b[pos] == '\0' || IsDelimiter(b[pos]) ==> TokenLength(CString(b[pos..])) == 0
  {
    if b[pos] != '\0' {
      assert b[pos..][1..] == b[pos + 1..];
      assert CString(b[pos..])[1..] == CString(b[pos + 1..]);
    }
  }

  /** From `start` to `end` there is nothing but the beginning of a word. */
  ghost predicate InWord(b: string, start: nat, end: nat) {
    && start <= end < |b| && Terminated(b, start) && Terminated(b, end)
    && end - start <= |CString(b[start..])|
    && CString(b[end..]) == CString(b[start..])[end - start..]
    && TokenLength(CString(b[start..])) == end - start + TokenLength(CString(b[end..]))
  }

  lemma WordGoesOn(b: string, start: nat, end: nat)
    requires InWord(b, start, end) && b[end] != '\0' && !IsDelimiter(b[end])
    ensures InWord(b, start, end + 1)
  {
    hide CString, TokenLength, IsDelimiter, Terminated;
    RestAt(b, end);
    RestAt(b, end + 1);
  }

  lemma WordStops(b: string, start: nat, end: nat)
    requires InWord(b, start, end) && (b[end] == '\0' || IsDelimiter(b[end]))
    ensures Terminated(b, end) && end - start == TokenLength(CString(b[start..]))
    ensures CString(b[end..]) == CString(b[start..])[end - start..]
  {
    hide CString, TokenLength, IsDelimiter, Terminated;
    RestAt(b, end);
  }

  /** Where the word that begins at `start` ends. */
  method WordEnd(buf: array<char>, start: nat) returns (end: nat)
    requires Terminated(buf[..], start)
    ensures start <= end < buf.Length && Terminated(buf[..], end)
    ensures end - start == TokenLength(CString(buf[..][start..]))
    ensures CString(buf[..][end..]) == CString(buf[..][start..])[end - start..]
    ensures buf[end] == '\0' || IsDelimiter(buf[end])
  {
    hide CString, TokenLength, IsDelimiter, Terminated, InWord;
    ghost var b := buf[..];
    end := start;
    WordStarts(b, start);
    while buf[end] != '\0' && !IsDelimiter(buf[end])
      invariant start <= end < buf.Length && InWord(b, start, end)
      decreases buf.Length - end
    {
      WordGoesOn(b, start, end);
      end := end + 1;
      InWordInside(b, start, end);
    }
    WordStops(b, start, end);
  }

  lemma WordStarts(b: string, start: nat)
    requires Terminated(b, start)
    ensures InWord(b, start, start) && start < |b|
  {
  }

  lemma InWordInside(b: string, start: nat, end: nat)
    requires InWord(b, start, end)
    ensures end < |b|
  {
  }

  /** The token ends at e in the buffer b. If there is a delimiter there, it is a terminator afterwards, and
    * nothing else has changed.
    */
  predicate EndsInPlace(b: string, after: string, e: nat, token: Option<string>) {
    && e < |b|
    && (token.Some? ==> |token.value| <= e && token.value == b[e - |token.value|..e])
    && after == if token.Some? && IsDelimiter(b[e]) then b[e := '\0'] else b
  }

  /** strtok on a buffer: it remembers where to go on and ends every token with a terminator in place. */
  class StrTok {
    const buf: array<char>
    var pos: nat

    ghost predicate Valid()
      reads this, buf
    {
      pos < buf.Length && Terminated(buf[..], pos)
    }

    /** What has not been tokenised yet. */
    ghost function Rest(): string
      reads this, buf
      requires pos <= buf.Length
    {
      CString(buf[..][pos..])
    }

    constructor (buf: array<char>)
      requires Terminated(buf[..], 0)
      ensures Valid() && this.buf == buf && pos == 0 && Rest() == CString(buf[..])
    {
      this.buf := buf;
      pos := 0;
      new;
      assert buf[..][0..] == buf[..];
    }

    /** Leaves delimiters behind. */
    method Skip()
      requires Valid()
      modifies this`pos
      ensures Valid() && Rest() == SkipDelimiters(old(Rest())) && pos + |Rest()| == old(pos + |Rest()|)
    {
      while IsDelimiter(buf[pos])
        invariant Valid() && pos + |Rest()| == old(pos + |Rest()|)
        invariant SkipDelimiters(Rest()) == SkipDelimiters(old(Rest()))
        decreases buf.Length - pos
      {
        assert buf[..][pos..][1..] == buf[..][pos + 1..];
        pos := pos + 1;
      }
    }

    /** The characters up to the next delimiter or terminator. */
    method ReadWord() returns (word: string)
      requires Valid()
      modifies this`pos
      ensures Valid() && old(pos) <= pos && pos + |Rest()| == old(pos + |Rest()|)
      ensures word == old(Rest())[..TokenLength(old(Rest()))] && Rest() == old(Rest())[TokenLength(old(Rest()))..]
      ensures Rest() == [] || IsDelimiter(Rest()[0])
      ensures word == buf[old(pos)..pos]
    {
      hide CString, TokenLength, IsDelimiter, Terminated;
      ghost var rest := Rest();
      var end := WordEnd(buf, pos);
      word := buf[pos..end];
      RestAt(buf[..], end);
      assert word == buf[..][pos..][..end - pos] == buf[..][pos..][..|rest|][..end - pos];
      pos := end;
    }

    /** Ends the token just read with a terminator, unless the string ends here, and moves behind it. */
    method Terminate()
      requires Valid()
      modifies this`pos, buf
      ensures Valid() && Rest() == AfterToken(old(Rest()), 0)
      ensures buf[..] == if old(Rest()) == [] then old(buf[..]) else old(buf[..])[old(pos) := '\0']
    {
      if buf[pos] != '\0' {
        ghost var rest, after := Rest(), buf[..][pos + 1..];
        assert buf[..][pos..][1..] == after;
        assert rest[1..] == CString(after);
        buf[pos] := '\0';
        assert buf[..][pos + 1..] == after;
        pos := pos + 1;
      }
    }

    /** Where the next token ends. */
    ghost function TokenEnd(): (e: nat)
      reads this, buf
      requires Valid()
      ensures e < buf.Length
    {
      var t := SkipDelimiters(Rest());
      pos + |Rest()| - |t| + TokenLength(t)
    }

    /** The next token, or None at the end of the string. The delimiter behind the token, if there is one,
      * becomes a terminator; nothing else in the buffer changes.
      */
    method Next() returns (token: Option<string>)
      requires Valid()
      modifies this`pos, buf
      ensures Valid()
      ensures EndsInPlace(old(buf[..]), buf[..], old(TokenEnd()), token)
      ensures var ts := Tokens(old(Rest()));
              && token == (if ts == [] then None else Some(ts[0]))
              && Tokens(Rest()) == (if ts == [] then [] else ts[1..])
    {
      hide CString, TokenLength, SkipDelimiters, Terminated, IsDelimiter;
      ghost var e, b := TokenEnd(), buf[..];
      Skip();
      if buf[pos] == '\0' {
        EmptyAtTerminator(buf[..], pos);
        return None;
      }
      NotEmptyBeforeTerminator(buf[..], pos);
      ghost var t, p := Rest(), pos;
      var word := ReadWord();
      assert pos == e && word == b[p..e] && |word| == e - p;
      EndOfWord(b, pos);
      token := Some(word);
      Terminate();
    }

    /** The argument atof(strtok(NULL, " ,")); None when there is no token left. */
    method NextFloat() returns (x: Option<real>)
      requires Valid()
      modifies this`pos, buf
      ensures Valid()
      ensures var ts := Tokens(old(Rest()));
              && x == (if ts == [] then None else Some(Atof(ts[0])))
              && Tokens(Rest()) == (if ts == [] then [] else ts[1..])
    {
      var token := Next();
      x := if token == None then None else Some(Atof(token.value));
    }

    /** The argument atoi(strtok(NULL, " ,")). */
    method NextInt() returns (x: Option<int>)
      requires Valid()
      modifies this`pos, buf
      ensures Valid()
      ensures var ts := Tokens(old(Rest()));
              && x == (if ts == [] then None else Some(Atoi(ts[0])))
              && Tokens(Rest()) == (if ts == [] then [] else ts[1..])
    {
      var token := Next();
      x := if token == None then None else Some(Atoi(token.value));
    }
  }

  lemma EndOfWord(b: string, e: nat)
    requires Terminated(b, e) && (CString(b[e..]) == [] || IsDelimiter(CString(b[e..])[0]))
    ensures e < |b| && (CString(b[e..]) == [] <==> !IsDelimiter(b[e]))
  {
  }

  lemma EmptyAtTerminator(s: seq<char>, pos: nat)
    requires pos < |s| && s[pos] == '\0'
    ensures CString(s[pos..]) == []
  {
  }

  lemma NotEmptyBeforeTerminator(s: seq<char>, pos: nat)
    requires pos < |s| && s[pos] != '\0'
    ensures CString(s[pos..]) != []
  {
  }

  /** What the handler does with the line that a read has put into its buffer. */
  method HandleLine(buf: array<char>) returns (outcome: Outcome)
    requires Terminated(buf[..], 0) && '\n' in CString(buf[..])
    modifies buf
    ensures outcome == Interpret(Tokens(UpToNewline(old(CString(buf[..])))))
  {
    hide CString, Tokens, Atof, Atoi, UpToNewline, IsDelimiter, SkipDelimiters, TokenLength;
    hide StrTok.TokenEnd, StrTok.Rest, StrTok.Valid, Terminated, EndsInPlace;
    StripNewline(buf);
    var line := new StrTok(buf);
    var pch := line.Next();
    if pch == None {
      return Nothing;
    }
    if pch.value == "/set_thrust" {
      var surgePort := line.NextFloat();
      var surgeStarboard := line.NextFloat();
      var heaveA := line.NextFloat();
      var heaveB := line.NextFloat();
      if surgePort == None || surgeStarboard == None || heaveA == None || heaveB == None {
        return Crash;
      }
      return Do(SetThrust(surgePort.value, surgeStarboard.value, heaveA.value, heaveB.value));
    }
    if pch.value == "/set_orientation" {
      var pitch := line.NextFloat();
      var roll := line.NextFloat();
      var yaw := line.NextFloat();
      if pitch == None || roll == None || yaw == None {
        return Crash;
      }
      return Do(SetOrientation(pitch.value, roll.value, yaw.value));
    }
    if pch.value == "/set_mode" {
      var mode := line.NextInt();
      if mode == None {
        return Crash;
      }
      return Do(SetMode(mode.value));
    }
    if pch.value == "/set_pid_values" {
      var kp := line.NextFloat();
      var ki := line.NextFloat();
      var kd := line.NextFloat();
      if kp == None || ki == None || kd == None {
        return Crash;
      }
      return Do(SetPidValues(kp.value, ki.value, kd.value));
    }
    if pch.value == "/set_current_orientation" {
      return Do(SetCurrentOrientation);
    }
    if pch.value == "/set_depth" {
      var depth := line.NextFloat();
      if depth == None {
        return Crash;
      }
      return Do(SetDepth(depth.value));
    }
    if pch.value == "/set_la" {
      var laser := line.NextInt();
      var la := line.NextInt();
      if laser == None || la == None {
        return Crash;
      }
      return Do(SetLa(laser.value, la.value));
    }
    return Nothing;
  }
}
